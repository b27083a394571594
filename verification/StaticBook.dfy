/** A codebook in the setup header: its list of codeword lengths in one of three forms, then its
    quantised values (section 3.2.1 of the Vorbis I specification). */
module StaticBook {
  import opened Wrappers
  import opened BitMath
  import opened BitBuffer
  import opened CodeTree
  import opened QuantVals
  import opened Fields

  const SYNC: nat := 0x564342

  /** Dequantisation data: nothing for map type 0. */
  datatype Mapping = NoMapping | Mapping(explicit: bool, qMin: nat, qDelta: nat, qQuant: nat, qSequencep: bool,
                                         quantlist: seq<int>)

  datatype Book = Book(dim: nat, lengthlist: seq<nat>, mapping: Mapping)

  function Magnitudes(q: seq<int>): (r: seq<int>)
    ensures |r| == |q|
  {
    seq(|q|, i requires 0 <= i < |q| => Abs(q[i]))
  }

  // ---------------------------------------------------------------------------------------------
  // What is written
  // ---------------------------------------------------------------------------------------------

  /** In order of length, none unused except perhaps a lone one. */
  predicate LengthOrdered(lens: seq<nat>)
  {
    |lens| > 0 && forall i :: 1 <= i < |lens| ==> Rises(lens, i)
  }

  predicate Rises(lens: seq<nat>, i: nat)
    requires 1 <= i < |lens|
  {
    lens[i - 1] != 0 && lens[i] >= lens[i - 1]
  }

  predicate AllUsed(lens: seq<nat>)
  {
    forall i :: 0 <= i < |lens| ==> lens[i] != 0
  }

  /** The low five bits of `length - 1`. */
  function FiveBits(length: nat): (v: nat)
    ensures v < 32
  {
    (length - 1) % 32
  }

  /** The first entry from `i` on that is longer than `len`. */
  function NextAbove(lens: seq<nat>, i: nat, len: nat): (k: nat)
    requires i <= |lens|
    ensures i <= k <= |lens| && (forall e :: i <= e < k ==> lens[e] <= len) && (k < |lens| ==> lens[k] > len)
    decreases |lens| - i
  {
    if i == |lens| || lens[i] > len then i else NextAbove(lens, i + 1, len)
  }

  /** How many entries of each length, from length `len` on and from entry `count` on. */
  ghost function RunBits(lens: seq<nat>, count: nat, len: nat): seq<bool>
    requires count <= |lens| && ValidLengths(lens) && len <= MAXLEN + 1
    decreases MAXLEN + 1 - len
  {
    if count == |lens| || len > MAXLEN then []
    else
      ToBits(NextAbove(lens, count, len) - count, ILog(|lens| - count))
      + RunBits(lens, NextAbove(lens, count, len), len + 1)
  }

  ghost function DenseBits(lens: seq<nat>, i: nat): seq<bool>
    requires i <= |lens|
    decreases |lens| - i
  {
    if i == |lens| then [] else ToBits(FiveBits(lens[i]), 5) + DenseBits(lens, i + 1)
  }

  ghost function TaggedBits(lens: seq<nat>, i: nat): seq<bool>
    requires i <= |lens|
    decreases |lens| - i
  {
    if i == |lens| then []
    else (if lens[i] == 0 then ToBits(0, 1) else ToBits(1, 1) + ToBits(FiveBits(lens[i]), 5)) + TaggedBits(lens, i + 1)
  }

  ghost function LengthBits(lens: seq<nat>): seq<bool>
    requires ValidLengths(lens)
  {
    if LengthOrdered(lens) then ToBits(1, 1) + (ToBits(FiveBits(lens[0]), 5) + RunBits(lens, 0, lens[0]))
    else if AllUsed(lens) then ToBits(0, 1) + (ToBits(0, 1) + DenseBits(lens, 0))
    else ToBits(0, 1) + (ToBits(1, 1) + TaggedBits(lens, 0))
  }

  // ---------------------------------------------------------------------------------------------
  // Writing lengths
  // ---------------------------------------------------------------------------------------------

  /** All of `lens[from..upto]` are `len`. */
  ghost predicate Flat(lens: seq<nat>, from: nat, upto: nat, len: nat)
  {
    from <= upto <= |lens| && forall k :: from <= k < upto ==> lens[k] == len
  }

  lemma NextIs(lens: seq<nat>, count: nat, len: nat, i: nat)
    requires count <= i <= |lens| && (forall e :: count <= e < i ==> lens[e] <= len) && (i < |lens| ==> lens[i] > len)
    ensures NextAbove(lens, count, len) == i
  {
    var k := NextAbove(lens, count, len);
    if k < |lens| {
      assert lens[k] > len;
    }
    if i < |lens| {
      assert lens[i] > len;
    }
  }

  lemma RunStep(lens: seq<nat>, count: nat, len: nat, i: nat)
    requires count < |lens| && count <= i <= |lens| && ValidLengths(lens) && len <= MAXLEN
    requires (forall e :: count <= e < i ==> lens[e] <= len) && (i < |lens| ==> lens[i] > len)
    ensures RunBits(lens, count, len) == ToBits(i - count, ILog(|lens| - count)) + RunBits(lens, i, len + 1)
  {
    hide ToBits, ILog;
    NextIs(lens, count, len, i);
  }

  /** Close the run of length `last` at entry `i`, and the empty runs up to length `this_`. */
  method PackRuns(lens: seq<nat>, count: nat, i: nat, last: nat, this_: nat, opb: OggPackBuffer, ghost all: seq<bool>)
    requires ValidLengths(lens) && count < i < |lens| && last < this_ == lens[i] <= MAXLEN && Flat(lens, count, i, last)
    requires opb.bits + RunBits(lens, count, last) == all
    modifies opb
    ensures opb.pos == old(opb.pos) && opb.bits + RunBits(lens, i, this_) == all
  {
    hide ToBits, ILog, RunBits, NextAbove;
    var n, count' := |lens|, count;
    var j := last;
    while j < this_
      invariant last <= j <= this_ && opb.pos == old(opb.pos)
      invariant if j == last then count' == count else count' == i
      invariant opb.bits + RunBits(lens, count', j) == all
    {
      RunStep(lens, count', j, i);
      Regroup(opb.bits, ToBits(i - count', ILog(n - count')), RunBits(lens, i, j + 1));
      opb.Write(i - count', ILog(n - count'));
      count' := i;
      j := j + 1;
    }
  }

  lemma RisesTo(lens: seq<nat>, i: nat)
    requires ValidLengths(lens) && LengthOrdered(lens) && 1 <= i < |lens|
    ensures 1 <= lens[i - 1] <= lens[i] <= MAXLEN
  {
    assert Rises(lens, i);
  }

  method PackOrdered(lens: seq<nat>, opb: OggPackBuffer)
    requires ValidLengths(lens) && LengthOrdered(lens) && |lens| > 0 && lens[0] <= MAXLEN
    modifies opb
    ensures opb.bits == old(opb.bits) + (ToBits(FiveBits(lens[0]), 5) + RunBits(lens, 0, lens[0]))
    ensures opb.pos == old(opb.pos)
  {
    hide ToBits, ILog, RunBits, FiveBits, NextAbove, LengthOrdered, ValidLengths;
    ghost var start, all := opb.bits, ToBits(FiveBits(lens[0]), 5) + RunBits(lens, 0, lens[0]);
    var n := |lens|;
    var count := 0;
    opb.Write(FiveBits(lens[0]), 5);
    Regroup(start, ToBits(FiveBits(lens[0]), 5), RunBits(lens, 0, lens[0]));
    var i := 1;
    while i < n
      invariant 1 <= i <= n && count < i && Flat(lens, count, i, lens[i - 1]) && opb.pos == old(opb.pos)
      invariant lens[i - 1] <= MAXLEN && opb.bits + RunBits(lens, count, lens[i - 1]) == start + all
    {
      RisesTo(lens, i);
      var this_, last := lens[i], lens[i - 1];
      if this_ > last {
        PackRuns(lens, count, i, last, this_, opb, start + all);
        count := i;
      }
      i := i + 1;
    }
    ghost var top := lens[n - 1];
    RunStep(lens, count, top, n);
    NothingLeft(lens, top + 1);
    ghost var bits := ToBits(n - count, ILog(n - count));
    assert bits + [] == bits;
    opb.Write(n - count, ILog(n - count));
  }

  lemma NothingLeft(lens: seq<nat>, len: nat)
    requires ValidLengths(lens) && len <= MAXLEN + 1
    ensures RunBits(lens, |lens|, len) == []
  {
  }

  method PackDense(lens: seq<nat>, opb: OggPackBuffer)
    requires ValidLengths(lens)
    modifies opb
    ensures opb.bits == old(opb.bits) + DenseBits(lens, 0) && opb.pos == old(opb.pos)
  {
    hide ToBits, FiveBits;
    ghost var start := opb.bits;
    var i := 0;
    while i < |lens|
      invariant 0 <= i <= |lens| && opb.pos == old(opb.pos)
      invariant opb.bits + DenseBits(lens, i) == start + DenseBits(lens, 0)
    {
      Regroup(opb.bits, ToBits(FiveBits(lens[i]), 5), DenseBits(lens, i + 1));
      opb.Write(FiveBits(lens[i]), 5);
      i := i + 1;
    }
    assert opb.bits + [] == opb.bits;
  }

  method PackTagged(lens: seq<nat>, opb: OggPackBuffer)
    requires ValidLengths(lens)
    modifies opb
    ensures opb.bits == old(opb.bits) + TaggedBits(lens, 0) && opb.pos == old(opb.pos)
  {
    hide ToBits, FiveBits;
    ghost var start := opb.bits;
    var i := 0;
    while i < |lens|
      invariant 0 <= i <= |lens| && opb.pos == old(opb.pos)
      invariant opb.bits + TaggedBits(lens, i) == start + TaggedBits(lens, 0)
    {
      ghost var rest := TaggedBits(lens, i + 1);
      if lens[i] == 0 {
        Regroup(opb.bits, ToBits(0, 1), rest);
        opb.Write(0, 1);
      } else {
        Regroup(ToBits(1, 1), ToBits(FiveBits(lens[i]), 5), rest);
        Regroup(opb.bits, ToBits(1, 1), ToBits(FiveBits(lens[i]), 5) + rest);
        opb.Write(1, 1);
        Regroup(opb.bits, ToBits(FiveBits(lens[i]), 5), rest);
        opb.Write(FiveBits(lens[i]), 5);
      }
      i := i + 1;
    }
    assert opb.bits + [] == opb.bits;
  }

  method PackLengths(lens: seq<nat>, opb: OggPackBuffer)
    requires ValidLengths(lens)
    modifies opb
    ensures opb.bits == old(opb.bits) + LengthBits(lens) && opb.pos == old(opb.pos)
  {
    hide ToBits, FiveBits, RunBits, DenseBits, TaggedBits;
    ghost var start := opb.bits;
    var i := 1;
    while i < |lens| && !(lens[i - 1] == 0 || lens[i] < lens[i - 1])
      invariant 1 <= i && (i <= |lens| || i == 1)
      invariant forall k :: 1 <= k < i && k < |lens| ==> Rises(lens, k)
    {
      i := i + 1;
    }
    if i == |lens| {
      opb.Write(1, 1);
      Regroup(start, ToBits(1, 1), ToBits(FiveBits(lens[0]), 5) + RunBits(lens, 0, lens[0]));
      PackOrdered(lens, opb);
    } else {
      if i < |lens| {
        assert !Rises(lens, i);
      }
      assert !LengthOrdered(lens);
      opb.Write(0, 1);
      i := 0;
      while i < |lens| && lens[i] != 0
        invariant 0 <= i <= |lens| && forall k :: 0 <= k < i ==> lens[k] != 0
      {
        i := i + 1;
      }
      if i == |lens| {
        Regroup(start, ToBits(0, 1), ToBits(0, 1) + DenseBits(lens, 0));
        Regroup(opb.bits, ToBits(0, 1), DenseBits(lens, 0));
        opb.Write(0, 1);
        PackDense(lens, opb);
      } else {
        Regroup(start, ToBits(0, 1), ToBits(1, 1) + TaggedBits(lens, 0));
        Regroup(opb.bits, ToBits(1, 1), TaggedBits(lens, 0));
        opb.Write(1, 1);
        PackTagged(lens, opb);
      }
    }
  }

  // ---------------------------------------------------------------------------------------------
  // Reading lengths
  // ---------------------------------------------------------------------------------------------

  /** A packet of whole bytes, of which at least `n` whole ones are still to come; the reader's guard. */
  predicate EnoughBytes(length: nat, pos: nat, n: nat)
  {
    n <= length / 8 - (pos + 7) / 8
  }

  /** The guards pass for whatever was written, provided seven more bits follow. */
  lemma GuardPasses(length: nat, pos: nat, bits: nat, more: nat)
    requires length % 8 == 0 && pos + bits + more == length && more >= 7
    ensures EnoughBytes(length, pos, (bits + 7) / 8)
  {
  }

  ghost predicate Guarded(length: nat, pos: nat, bits: nat)
  {
    EnoughBytes(length, pos, (bits + 7) / 8)
  }

  /** With `more` bits after it, a list is never refused, whatever its size and place. */
  ghost predicate AlwaysGuarded(more: nat)
  {
    forall length: nat, pos: nat, bits: nat ::
      length % 8 == 0 && pos + bits + more == length ==> Guarded(length, pos, bits)
  }

  /** Seven is exact: with fewer bits after it, some list that is there is refused. */
  lemma GuardNeedsSeven(more: nat)
    ensures AlwaysGuarded(more) <==> more >= 7
  {
    if more < 7 {
      assert !Guarded(8, 7 - more, 1);
    }
  }

  /** An ordered list starts with an entry that is used; the ordered form writes its length less one, and
      cannot say that there is none. Every list but those comes back. */
  predicate Writable(lens: seq<nat>)
  {
    LengthOrdered(lens) ==> lens[0] != 0
  }

  /** There is one list that does not: that of a lone unused entry. */
  lemma WritableUnlessLone(lens: seq<nat>)
    ensures Writable(lens) <==> lens != [0]
  {
    if |lens| == 1 {
      assert lens == [lens[0]];
    } else if LengthOrdered(lens) {
      assert Rises(lens, 1);
    }
  }

  /** The list of one unused entry is written exactly like that of one entry of length 32. */
  lemma LoneUnusedEntry()
    ensures LengthBits([0]) == LengthBits([32])
  {
    hide ToBits;
    assert LengthOrdered([0]) && LengthOrdered([32]);
    assert NextAbove([0], 0, 0) == 1 && NextAbove([32], 0, 32) == 1;
    NothingLeft([0], 1);
    NothingLeft([32], 33);
    RunStep([0], 0, 0, 1);
    RunStep([32], 0, 32, 1);
  }

  lemma FiveBack(length: nat)
    requires 1 <= length <= 32
    ensures FiveBits(length) + 1 == length
  {
  }

  /** The packet holds a list of `n` lengths next, and then `more`. */
  ghost predicate Holds(opb: OggPackBuffer, n: nat, lens: seq<nat>, bits: seq<bool>, more: seq<bool>)
    reads opb
  {
    ValidLengths(lens) && |lens| == n && opb.Valid() && opb.Rest() == bits + more
  }

  lemma DenseGroups(lens: seq<nat>, i: nat, more: seq<bool>)
    requires i <= |lens|
    ensures DenseBits(lens, i) + more
         == if i == |lens| then more else ToBits(FiveBits(lens[i]), 5) + (DenseBits(lens, i + 1) + more)
  {
    hide ToBits;
    if i < |lens| {
      Regroup(ToBits(FiveBits(lens[i]), 5), DenseBits(lens, i + 1), more);
    } else {
      assert [] + more == more;
    }
  }

  /** A length of a used entry in five bits, less one. */
  ghost predicate FiveAt(bits: seq<bool>, len: nat, rest: seq<bool>)
  {
    5 <= |bits| && Stands(bits, 0, 5, len - 1) && rest == bits[5..]
  }

  /** A bit says whether the entry is used; its length follows if it is. */
  ghost predicate TaggedAt(bits: seq<bool>, len: nat, rest: seq<bool>)
  {
    |bits| >= 1 && if bits[0] then FiveAt(bits[1..], len, rest) else len == 0 && rest == bits[1..]
  }

  /** `num` of `left` entries that are left have this length. */
  datatype Run = Run(num: nat, length: nat, left: nat)

  /** Its number, in as many bits as what is left takes. */
  ghost predicate RunAt(bits: seq<bool>, r: Run, rest: seq<bool>)
  {
    ILog(r.left) <= |bits| && Stands(bits, 0, ILog(r.left), r.num) && rest == bits[ILog(r.left)..]
  }

  ghost function Expand(runs: seq<Run>): seq<nat>
  {
    if runs == [] then []
    else
      var r := runs[|runs| - 1];
      Expand(runs[..|runs| - 1]) + seq(r.num, j => r.length)
  }

  /** Lengths go up by one from run to run. */
  ghost predicate RunsFrom(runs: seq<Run>, n: nat, first: nat)
  {
    forall k :: 0 <= k < |runs| ==> RunIs(runs, n, first, k)
  }

  ghost predicate RunIs(runs: seq<Run>, n: nat, first: nat, k: nat)
    requires k < |runs|
  {
    runs[k].length == first + k && runs[k].left == n - |Expand(runs[..k])|
  }

  ghost predicate RunsAt(bits: seq<bool>, runs: seq<Run>, n: nat, first: nat, rest: seq<bool>)
  {
    Chain(RunAt, bits, runs, rest) && RunsFrom(runs, n, first)
  }

  lemma NextRunAt(bits: seq<bool>, runs: seq<Run>, n: nat, first: nat, r: Run, mid: seq<bool>, rest: seq<bool>)
    requires RunsAt(bits, runs, n, first, mid) && RunAt(mid, r, rest)
    requires r.length == first + |runs| && r.left == n - |Expand(runs)|
    ensures RunsAt(bits, runs + [r], n, first, rest) && Expand(runs + [r]) == Expand(runs) + seq(r.num, j => r.length)
  {
    hide RunAt, Expand, Chain;
    ChainMore(RunAt, bits, runs, r, mid, rest);
    ExpandMore(runs, r);
    forall k | 0 <= k < |runs + [r]|
      ensures RunIs(runs + [r], n, first, k)
    {
      assert (runs + [r])[..k] == if k < |runs| then runs[..k] else runs;
      if k < |runs| {
        assert RunIs(runs, n, first, k);
      }
    }
  }

  lemma ExpandMore(runs: seq<Run>, r: Run)
    ensures Expand(runs + [r]) == Expand(runs) + seq(r.num, j => r.length)
  {
    assert (runs + [r])[..|runs + [r]| - 1] == runs;
  }

  /** The first length in five bits, less one, and a run for each length from there. */
  ghost predicate OrderedAt(bits: seq<bool>, list: seq<nat>, rest: seq<bool>)
  {
    5 <= |bits|
    && exists runs :: RunsAt(bits[5..], runs, |list|, FromBits(bits[0..5]) + 1, rest) && Expand(runs) == list
  }

  /** One bit says whether the lengths are in order, and if they are not a second whether each has a tag. */
  ghost predicate LengthsAt(bits: seq<bool>, list: seq<nat>, rest: seq<bool>)
  {
    && |bits| >= 1
    && if bits[0] then OrderedAt(bits[1..], list, rest)
       else
         |bits| >= 2
         && if bits[1] then Chain<nat>(TaggedAt, bits[2..], list, rest) else Chain<nat>(FiveAt, bits[2..], list, rest)
  }

  lemma BitIs(bits: seq<bool>, v: int)
    requires |bits| >= 1 && v == FromBits(bits[..1])
    ensures v == if bits[0] then 1 else 0
  {
    assert bits[..1] == [bits[0]];
    assert FromBits([bits[0]][1..]) == 0;
  }

  lemma NotFive(bits: seq<bool>, len: nat, rest: seq<bool>)
    ensures bits == [] ==> !FiveAt(bits, len, rest)
  {
  }

  lemma {:induction false} NothingTagged(list: seq<nat>, rest: seq<bool>)
    requires Chain<nat>(TaggedAt, [], list, rest)
    ensures rest == []
    decreases |list|
  {
    if list != [] {
      var mid :| ChainLast<nat>(TaggedAt, [], list, mid, rest);
      NothingTagged(list[..|list| - 1], mid);
    }
  }

  lemma FrontStands(bits: seq<bool>, width: nat, v: int)
    requires width <= |bits| && v == FromBits(bits[..width])
    ensures Stands(bits, 0, width, v)
  {
    assert bits[0..width] == bits[..width];
  }

  /** A length of a used entry. */
  method ReadLength(opb: OggPackBuffer, ghost known: bool, ghost want: nat, ghost rest: seq<bool>)
      returns (ok: bool, length: nat)
    requires opb.Valid()
    requires known ==> 1 <= want <= MAXLEN && opb.Rest() == ToBits(FiveBits(want), 5) + rest
    modifies opb
    ensures opb.Valid() && opb.bits == old(opb.bits) && length <= MAXLEN
    ensures ok ==> FiveAt(old(opb.Rest()), length, opb.Rest())
    ensures !ok ==> opb.Rest() == []
    ensures known ==> ok && length == want && opb.Rest() == rest
  {
    hide ToBits, FiveBits, Pow2, FromBits, Stands;
    FieldPowers();
    ghost var bits := opb.Rest();
    if known {
      FiveBack(want);
    }
    var num := opb.ReadBack(5, known, FiveBits(want), rest);
    if num == -1 {
      return false, 0;
    }
    FrontStands(bits, 5, num);
    return true, num + 1;
  }

  lemma DenseStep(lens: seq<nat>, i: nat, more: seq<bool>)
    requires AllUsed(lens) && ValidLengths(lens) && i < |lens|
    ensures 1 <= lens[i] <= MAXLEN && lens[..i] + [lens[i]] == lens[..i + 1]
    ensures DenseBits(lens, i) + more == ToBits(FiveBits(lens[i]), 5) + (DenseBits(lens, i + 1) + more)
  {
    hide ToBits, FiveBits, DenseBits;
    DenseGroups(lens, i, more);
  }

  lemma BoundedSoFar(list: seq<nat>, x: nat)
    ensures list == [] ==> Bounded(list)
    ensures Bounded(list) && x <= MAXLEN ==> Bounded(list + [x])
  {
  }

  method UnpackDense(n: nat, opb: OggPackBuffer, ghost known: bool, ghost lens: seq<nat>, ghost more: seq<bool>)
      returns (ok: bool, list: seq<nat>)
    requires opb.Valid() && (known ==> AllUsed(lens) && Holds(opb, n, lens, DenseBits(lens, 0), more))
    modifies opb
    ensures opb.Valid() && opb.bits == old(opb.bits) && (ok ==> |list| == n && Bounded(list))
    ensures ok ==> Chain<nat>(FiveAt, old(opb.Rest()), list, opb.Rest())
    ensures known ==> ok && list == lens && opb.Rest() == more
  {
    hide ToBits, FiveBits, Pow2, ValidLengths, DenseBits, AllUsed, Bounded, OggPackBuffer.Rest, Chain, FiveAt;
    ghost var bits := opb.Rest();
    ChainEnds<nat>(FiveAt, bits);
    ok, list := true, [];
    BoundedSoFar([], 0);
    var i := 0;
    while i < n
      invariant 0 <= i <= n && |list| == i && Bounded(list)
      invariant opb.Valid() && opb.bits == old(opb.bits)
      invariant Chain<nat>(FiveAt, bits, list, opb.Rest())
      invariant known ==> list == lens[..i] && opb.Rest() == DenseBits(lens, i) + more
    {
      ghost var rest := if known then DenseBits(lens, i + 1) + more else [];
      if known {
        DenseStep(lens, i, more);
      }
      var length;
      ghost var mid := opb.Rest();
      ok, length := ReadLength(opb, known, if known then lens[i] else 0, rest);
      if !ok {
        return false, [];
      }
      BoundedSoFar(list, length);
      ChainMore<nat>(FiveAt, bits, list, length, mid, opb.Rest());
      list := list + [length];
      i := i + 1;
    }
    if known {
      DenseGroups(lens, n, more);
    }
  }

  lemma NoTags(lens: seq<nat>)
    ensures TaggedBits(lens, |lens|) == []
  {
  }

  method UnpackTagged(n: nat, opb: OggPackBuffer, ghost known: bool, ghost lens: seq<nat>, ghost more: seq<bool>)
      returns (ok: bool, list: seq<nat>)
    requires opb.Valid() && (known ==> Holds(opb, n, lens, TaggedBits(lens, 0), more))
    modifies opb
    ensures opb.Valid() && opb.bits == old(opb.bits) && (ok ==> |list| == n && Bounded(list))
    ensures ok ==> Chain<nat>(TaggedAt, old(opb.Rest()), list, opb.Rest())
    ensures known ==> ok && list == lens && opb.Rest() == more
  {
    hide ToBits, FiveBits, Pow2, TaggedBits, ValidLengths, Chain, TaggedAt, OggPackBuffer.Rest;
    ghost var bits := opb.Rest();
    ChainEnds<nat>(TaggedAt, bits);
    NoTags(lens);
    ok, list := true, [];
    var i := 0;
    while i < n
      invariant 0 <= i <= n && |list| == i && Bounded(list)
      invariant opb.Valid() && opb.bits == old(opb.bits)
      invariant Chain<nat>(TaggedAt, bits, list, opb.Rest())
      invariant known ==> list == lens[..i] && opb.Rest() == TaggedBits(lens, i) + more
    {
      if known {
        TagGroups(lens, i, more);
        LengthFits(lens, i);
      }
      var length: nat;
      ghost var mid := opb.Rest();
      ok, length := ReadTagged(opb, known, if known then lens[i] else 0,
                               if known then TaggedBits(lens, i + 1) + more else []);
      if !ok {
        return false, [];
      }
      ChainMore<nat>(TaggedAt, bits, list, length, mid, opb.Rest());
      list := list + [length];
      i := i + 1;
    }
    assert [] + more == more;
    ok := true;
  }

  /** One tagged length: the tag, then the length if the entry is used. */
  method ReadTagged(opb: OggPackBuffer, ghost known: bool, ghost want: nat, ghost rest: seq<bool>)
      returns (ok: bool, length: nat)
    requires want <= MAXLEN && opb.Valid()
    requires known ==>
      opb.Rest() == if want != 0 then ToBits(1, 1) + (ToBits(FiveBits(want), 5) + rest) else ToBits(0, 1) + rest
    modifies opb
    ensures opb.Valid() && opb.bits == old(opb.bits) && length <= MAXLEN
    ensures ok ==> TaggedAt(old(opb.Rest()), length, opb.Rest())
    ensures known ==> ok && length == want && opb.Rest() == rest
  {
    hide ToBits, FiveBits, Pow2, FromBits, FiveAt, OggPackBuffer.Rest;
    ok, length := true, 0;
    FieldPowers();
    ghost var bits := opb.Rest();
    ghost var used := want != 0;
    var tag := opb.ReadBack(1, known, if used then 1 else 0, if used then ToBits(FiveBits(want), 5) + rest else rest);
    if tag >= 0 {
      BitIs(bits, tag);
    }
    ghost var mid := opb.Rest();
    if tag != 0 {
      ok, length := ReadLength(opb, known, want, rest);
      NotFive(mid, length, opb.Rest());
    }
  }

  /** Lengths that five bits can say, or zero. */
  ghost predicate Bounded(lens: seq<nat>)
  {
    forall i :: 0 <= i < |lens| ==> lens[i] <= MAXLEN
  }

  lemma LengthFits(lens: seq<nat>, i: nat)
    requires ValidLengths(lens) && i < |lens|
    ensures lens[i] <= MAXLEN
  {
  }

  lemma TagGroups(lens: seq<nat>, i: nat, more: seq<bool>)
    requires i < |lens|
    ensures var rest := TaggedBits(lens, i + 1) + more;
      TaggedBits(lens, i) + more
      == if lens[i] != 0 then ToBits(1, 1) + (ToBits(FiveBits(lens[i]), 5) + rest) else ToBits(0, 1) + rest
  {
    hide ToBits, FiveBits;
    var tag, five, next := ToBits(1, 1), ToBits(FiveBits(lens[i]), 5), TaggedBits(lens, i + 1);
    if lens[i] != 0 {
      Regroup(tag + five, next, more);
      Regroup(tag, five, next + more);
    } else {
      Regroup(ToBits(0, 1), next, more);
    }
  }

  lemma {:induction false} FlatKraft(lens: seq<nat>, from: nat, upto: nat, len: nat)
    requires ValidLengths(lens) && Flat(lens, from, upto, len) && 1 <= len <= MAXLEN
    ensures Kraft(lens, upto) == Kraft(lens, from) + (upto - from) * Span(len)
    decreases upto
  {
    hide Span;
    if from < upto {
      FlatKraft(lens, from, upto - 1, len);
      assert (upto - from) * Span(len) == (upto - 1 - from) * Span(len) + Span(len);
    }
  }

  /** A tree has at most `2^len` codewords of length `len`. */
  lemma RunFitsTree(lens: seq<nat>, from: nat, upto: nat, len: nat)
    requires ValidLengths(lens) && Flat(lens, from, upto, len) && 1 <= len <= MAXLEN && Kraft(lens, |lens|) <= WORD
    ensures upto - from <= Pow2(len)
    ensures upto > from ==> (upto - from - 1) / Pow2(len - 1) <= 1
  {
    FlatKraft(lens, from, upto, len);
    KraftMonotone(lens, upto, |lens|);
    Pow2Add(len, MAXLEN - len);
    Pow2Facts();
    hide Pow2, Kraft;
    var num, s := upto - from, Pow2(MAXLEN - len);
    if num > Pow2(len) {
      MulStep(Pow2(len), num, s);
    }
    TwiceHalf(len);
    if num > 0 {
      DivLeast(num - 1, Pow2(len - 1));
    }
  }

  lemma DivLeast(x: nat, p: nat)
    requires p > 0 && x < 2 * p
    ensures x / p <= 1
  {
    DivMod(x, p);
    if x / p >= 2 {
      MulMonotone(2, x / p, p);
    }
  }

  /** Every entry from `i` on is at least `len` long. */
  ghost predicate AtLeast(lens: seq<nat>, i: nat, len: nat)
  {
    forall k :: i <= k < |lens| ==> lens[k] >= len
  }

  lemma {:induction false} OrderedFrom(lens: seq<nat>, i: nat, k: nat)
    requires LengthOrdered(lens) && i <= k < |lens|
    ensures lens[i] <= lens[k]
    decreases k
  {
    if i < k {
      assert Rises(lens, k);
      OrderedFrom(lens, i, k - 1);
    }
  }

  lemma StartsAt(lens: seq<nat>)
    requires ValidLengths(lens) && LengthOrdered(lens) && Writable(lens)
    ensures |lens| > 0 && 1 <= lens[0] <= MAXLEN && AtLeast(lens, 0, lens[0])
  {
    if |lens| > 1 {
      assert Rises(lens, 1);
    } else {
      assert lens == [lens[0]];
    }
    forall k | 0 <= k < |lens|
      ensures lens[k] >= lens[0]
    {
      OrderedFrom(lens, 0, k);
    }
  }

  /** What the next number in the ordered form says, and that the reader's checks accept it. */
  lemma NextRun(lens: seq<nat>, i: nat, len: nat, more: seq<bool>)
    requires ValidLengths(lens) && LengthOrdered(lens) && Kraft(lens, |lens|) <= WORD
    requires i < |lens| && 1 <= len && AtLeast(lens, i, len)
    ensures len <= MAXLEN
    ensures var k, n := NextAbove(lens, i, len), |lens|;
      && k - i < Pow2(ILog(n - i)) && (k > i ==> (k - i - 1) / Pow2(len - 1) <= 1)
      && Flat(lens, i, k, len) && AtLeast(lens, k, len + 1)
      && RunBits(lens, i, len) + more == ToBits(k - i, ILog(n - i)) + (RunBits(lens, k, len + 1) + more)
  {
    hide ToBits, Pow2, Kraft, ILog, ValidLengths, LengthOrdered, RunBits, Flat;
    assert lens[i] >= len;
    LengthFits(lens, i);
    var k := NextAbove(lens, i, len);
    Rising(lens, i, k, len);
    RunFitsTree(lens, i, k, len);
    RunGroups(lens, i, len, more);
    StillRising(lens, k, len);
  }

  lemma RunGroups(lens: seq<nat>, i: nat, len: nat, more: seq<bool>)
    requires ValidLengths(lens) && i < |lens| && len <= MAXLEN
    ensures var k := NextAbove(lens, i, len);
      RunBits(lens, i, len) + more == ToBits(k - i, ILog(|lens| - i)) + (RunBits(lens, k, len + 1) + more)
  {
    hide ToBits, ILog, ValidLengths;
    var k := NextAbove(lens, i, len);
    Regroup(ToBits(k - i, ILog(|lens| - i)), RunBits(lens, k, len + 1), more);
  }

  lemma Rising(lens: seq<nat>, i: nat, k: nat, len: nat)
    requires i <= |lens| && k == NextAbove(lens, i, len) && AtLeast(lens, i, len)
    ensures Flat(lens, i, k, len)
  {
  }

  lemma StillRising(lens: seq<nat>, k: nat, len: nat)
    requires LengthOrdered(lens) && (k < |lens| ==> lens[k] > len)
    ensures AtLeast(lens, k, len + 1)
  {
    forall e | k <= e < |lens|
      ensures lens[e] >= len + 1
    {
      OrderedFrom(lens, k, e);
    }
  }

  method UnpackOrdered(n: nat, opb: OggPackBuffer, ghost known: bool, ghost lens: seq<nat>, ghost more: seq<bool>)
      returns (ok: bool, list: seq<nat>)
    requires opb.Valid()
    requires known ==>
      && ValidLengths(lens) && |lens| == n && LengthOrdered(lens) && Writable(lens) && Kraft(lens, n) <= WORD && n > 0
      && lens[0] <= MAXLEN && opb.Rest() == ToBits(FiveBits(lens[0]), 5) + (RunBits(lens, 0, lens[0]) + more)
    modifies opb
    ensures opb.Valid() && opb.bits == old(opb.bits) && (ok ==> |list| == n && Bounded(list))
    ensures ok ==> OrderedAt(old(opb.Rest()), list, opb.Rest())
    ensures known ==> ok && list == lens && opb.Rest() == more
  {
    hide ToBits, FiveBits, Pow2, ILog, RunBits, Kraft, LengthOrdered, AtLeast, NextAbove, ValidLengths;
    hide FromBits, RunAt, RunsAt, Expand, OggPackBuffer.Rest;
    FieldPowers();
    ghost var bits := opb.Rest();
    if known {
      StartsAt(lens);
      FiveBack(lens[0]);
    }
    var length := opb.ReadBack(5, known, if known then FiveBits(lens[0]) else 0,
                               if known then RunBits(lens, 0, lens[0]) + more else []);
    length := length + 1;
    if length == 0 {
      return false, [];
    }
    ghost var start, first, runs: seq<Run> := opb.Rest(), length, [];
    NoRuns(start, n, first);
    list := [];
    var i := 0;
    while i < n
      invariant 0 <= i <= n && |list| == i && Bounded(list)
      invariant opb.Valid() && opb.bits == old(opb.bits)
      invariant 1 <= length <= MAXLEN + 1 && length == first + |runs|
      invariant RunsAt(start, runs, n, first, opb.Rest()) && Expand(runs) == list
      invariant known ==> list == lens[..i] && AtLeast(lens, i, length) && opb.Rest() == RunBits(lens, i, length) + more
      decreases MAXLEN + 1 - length
    {
      ghost var mid := opb.Rest();
      var num := ReadRun(n, i, length, opb, known, lens, more);
      if num < 0 {
        return false, [];
      }
      NextRunAt(start, runs, n, first, Run(num, length, n - i), mid, opb.Rest());
      runs := runs + [Run(num, length, n - i)];
      list := list + seq(num, j => length);
      i := i + num;
      length := length + 1;
    }
    if known {
      NothingLeft(lens, length);
    }
    assert [] + more == more;
    assert bits[0..5] == bits[..5];
    ok := true;
  }

  lemma NoRuns(bits: seq<bool>, n: nat, first: nat)
    ensures RunsAt(bits, [], n, first, bits) && Expand([]) == []
  {
    ChainEnds(RunAt, bits);
  }

  /** How many entries from `i` on are `length` long; negative when that cannot be. */
  method ReadRun(n: nat, i: nat, length: nat, opb: OggPackBuffer, ghost known: bool, ghost lens: seq<nat>,
                 ghost more: seq<bool>)
      returns (num: int)
    requires opb.Valid() && i < n && 1 <= length <= MAXLEN + 1
    requires known ==>
      && ValidLengths(lens) && |lens| == n && LengthOrdered(lens) && Kraft(lens, n) <= WORD
      && AtLeast(lens, i, length) && opb.Rest() == RunBits(lens, i, length) + more
    modifies opb
    ensures opb.Valid() && opb.bits == old(opb.bits)
    ensures num <= n - i && (num >= 0 ==> length <= MAXLEN)
    ensures num >= 0 ==> RunAt(old(opb.Rest()), Run(num, length, n - i), opb.Rest())
    ensures known ==>
      && num >= 0 && lens[..i + num] == lens[..i] + seq(num, j => length) && AtLeast(lens, i + num, length + 1)
      && opb.Rest() == RunBits(lens, i + num, length + 1) + more
  {
    hide ToBits, Pow2, ILog, RunBits, Kraft, LengthOrdered, AtLeast, NextAbove, ValidLengths, FromBits, Stands;
    ghost var bits := opb.Rest();
    if known {
      NextRun(lens, i, length, more);
    }
    ghost var k := if known then NextAbove(lens, i, length) else i;
    num := opb.ReadBack(ILog(n - i), known, k - i, if known then RunBits(lens, k, length + 1) + more else []);
    if known {
      assert lens[..k] == lens[..i] + lens[i..k];
      assert lens[i..k] == seq(k - i, j => length);
    }
    if num >= 0 {
      FrontStands(bits, ILog(n - i), num);
    }
    if num == -1 || length > 32 || num > n - i || (num > 0 && (num - 1) / Pow2(length - 1) > 1) {
      num := -1;
    }
  }

  /** The length list, in whichever form it was written. */
  method UnpackLengths(n: nat, opb: OggPackBuffer, ghost known: bool, ghost lens: seq<nat>, ghost more: seq<bool>)
      returns (ok: bool, list: seq<nat>)
    requires opb.Valid()
    requires known ==>
      && ValidLengths(lens) && |lens| == n && Writable(lens) && Kraft(lens, n) <= WORD
      && opb.Rest() == LengthBits(lens) + more && |opb.bits| % 8 == 0 && |more| >= 7
    modifies opb
    ensures opb.Valid() && opb.bits == old(opb.bits) && (ok ==> |list| == n && Bounded(list))
    ensures ok && opb.Rest() != [] ==> LengthsAt(old(opb.Rest()), list, opb.Rest())
    ensures known ==> ok && list == lens && opb.Rest() == more
  {
    hide ToBits, FiveBits, Pow2, ILog, RunBits, Kraft, LengthOrdered, ValidLengths, AllUsed, DenseBits, TaggedBits;
    hide LengthBits, AfterForm, FromBits, OrderedAt, Chain, OggPackBuffer.Rest;
    FieldPowers();
    ghost var bits := opb.Rest();
    if known {
      LengthGroups(lens, more);
    }
    ghost var ordered, rest := known && LengthOrdered(lens), if known then AfterForm(lens, more) else [];
    var form := opb.ReadBack(1, known, if ordered then 1 else 0, rest);
    if form >= 0 {
      BitIs(bits, form);
    }
    if form == 1 {
      if known {
        OrderedRest(lens, more);
      }
      ok, list := UnpackOrdered(n, opb, known, lens, more);
    } else if form == 0 {
      ghost var mid := opb.Rest();
      ok, list := UnpackUnordered(n, opb, known, lens, more);
      SecondBit(bits, mid);
    } else {
      return false, [];
    }
  }

  lemma SecondBit(bits: seq<bool>, mid: seq<bool>)
    requires |bits| >= 1 && mid == bits[1..]
    ensures |mid| >= 1 ==> |bits| >= 2 && mid[0] == bits[1] && mid[1..] == bits[2..]
  {
  }

  lemma OrderedRest(lens: seq<nat>, more: seq<bool>)
    requires ValidLengths(lens) && LengthOrdered(lens)
    ensures lens[0] <= MAXLEN
    ensures AfterForm(lens, more) == ToBits(FiveBits(lens[0]), 5) + (RunBits(lens, 0, lens[0]) + more)
  {
  }

  /** A list out of order, once the room for it has been checked. */
  method UnpackUnordered(n: nat, opb: OggPackBuffer, ghost known: bool, ghost lens: seq<nat>, ghost more: seq<bool>)
      returns (ok: bool, list: seq<nat>)
    requires opb.Valid()
    requires known ==>
      && ValidLengths(lens) && |lens| == n && !LengthOrdered(lens)
      && opb.Rest() == AfterForm(lens, more) && |opb.bits| % 8 == 0 && |more| >= 7
    modifies opb
    ensures opb.Valid() && opb.bits == old(opb.bits) && (ok ==> |list| == n && Bounded(list))
    ensures ok && opb.Rest() != [] ==>
      && |old(opb.Rest())| >= 1
      && if old(opb.Rest())[0] then Chain<nat>(TaggedAt, old(opb.Rest())[1..], list, opb.Rest())
         else Chain<nat>(FiveAt, old(opb.Rest())[1..], list, opb.Rest())
    ensures known ==> ok && list == lens && opb.Rest() == more
  {
    hide ToBits, Pow2, ILog, LengthOrdered, ValidLengths, AllUsed, DenseBits, TaggedBits, FromBits, Chain;
    FieldPowers();
    ghost var bits := opb.Rest();
    ghost var dense := known && AllUsed(lens);
    ghost var lists := if !known then [] else if dense then DenseBits(lens, 0) + more else TaggedBits(lens, 0) + more;
    ListSizes(lens);
    var unused := opb.ReadBack(1, known, if dense then 0 else 1, lists);
    if unused >= 0 {
      BitIs(bits, unused);
    }
    if known {
      assert opb.pos + |lists| == |opb.bits|;
      GuardList(|opb.bits|, opb.pos, n * (if unused != 0 then 1 else 5), |lists| - |more|, |more|);
    }
    if !EnoughBytes(|opb.bits|, opb.pos, (n * (if unused != 0 then 1 else 5) + 7) / 8) {
      return false, [];
    }
    if unused != 0 {
      ok, list := UnpackTagged(n, opb, known, lens, more);
      if unused < 0 && ok {
        NothingTagged(list, opb.Rest());
      }
    } else {
      ok, list := UnpackDense(n, opb, known, lens, more);
    }
  }

  /** What follows the first bit of a length list. */
  ghost function AfterForm(lens: seq<nat>, more: seq<bool>): seq<bool>
    requires ValidLengths(lens)
  {
    if LengthOrdered(lens) then ToBits(FiveBits(lens[0]), 5) + (RunBits(lens, 0, lens[0]) + more)
    else if AllUsed(lens) then ToBits(0, 1) + (DenseBits(lens, 0) + more)
    else ToBits(1, 1) + (TaggedBits(lens, 0) + more)
  }

  lemma LengthGroups(lens: seq<nat>, more: seq<bool>)
    requires ValidLengths(lens)
    ensures LengthBits(lens) + more == ToBits(if LengthOrdered(lens) then 1 else 0, 1) + AfterForm(lens, more)
    ensures LengthOrdered(lens) ==> |lens| > 0 && lens[0] <= MAXLEN
  {
    hide ToBits, FiveBits, RunBits, DenseBits, TaggedBits;
    if LengthOrdered(lens) {
      Regroup(ToBits(FiveBits(lens[0]), 5), RunBits(lens, 0, lens[0]), more);
      Regroup(ToBits(1, 1), ToBits(FiveBits(lens[0]), 5) + RunBits(lens, 0, lens[0]), more);
    } else if AllUsed(lens) {
      Regroup(ToBits(0, 1), DenseBits(lens, 0), more);
      Regroup(ToBits(0, 1), ToBits(0, 1) + DenseBits(lens, 0), more);
    } else {
      Regroup(ToBits(1, 1), TaggedBits(lens, 0), more);
      Regroup(ToBits(0, 1), ToBits(1, 1) + TaggedBits(lens, 0), more);
    }
  }

  lemma {:induction false} DenseSize(lens: seq<nat>, i: nat)
    requires i <= |lens|
    ensures |DenseBits(lens, i)| == 5 * (|lens| - i)
    decreases |lens| - i
  {
    hide ToBits;
    if i < |lens| {
      DenseSize(lens, i + 1);
    }
  }

  lemma {:induction false} TaggedSize(lens: seq<nat>, i: nat)
    requires i <= |lens|
    ensures |TaggedBits(lens, i)| >= |lens| - i
    decreases |lens| - i
  {
    hide ToBits;
    if i < |lens| {
      TaggedSize(lens, i + 1);
    }
  }

  lemma ListSizes(lens: seq<nat>)
    ensures |DenseBits(lens, 0)| == 5 * |lens| && |TaggedBits(lens, 0)| >= |lens|
  {
    DenseSize(lens, 0);
    TaggedSize(lens, 0);
  }

  lemma GuardList(length: nat, pos: nat, least: nat, bits: nat, more: nat)
    requires length % 8 == 0 && pos + bits + more == length && more >= 7 && least <= bits
    ensures EnoughBytes(length, pos, (least + 7) / 8)
  {
    GuardPasses(length, pos, bits, more);
  }

  // ---------------------------------------------------------------------------------------------
  // Quantised values, and the whole book
  // ---------------------------------------------------------------------------------------------

  /** How many values a mapping lists. */
  ghost function Listed(explicit: bool, entries: nat, dim: nat): nat
  {
    if explicit then entries * dim else if dim == 0 then 0 else Root(entries, dim)
  }

  /** A mapping whose fields and values fit what is written for them. */
  ghost predicate MappingFits(m: Mapping, entries: nat, dim: nat)
  {
    m.Mapping? ==>
      && m.qMin < WORD && m.qDelta < WORD && 1 <= m.qQuant <= 16 && |m.quantlist| == Listed(m.explicit, entries, dim)
      && ValuesFit(m.quantlist, m.qQuant)
  }

  ghost predicate ValuesFit(q: seq<int>, w: nat)
  {
    forall i :: 0 <= i < |q| ==> Abs(q[i]) < Pow2(w)
  }

  /** What the reader makes sure of. */
  ghost predicate Readable(s: Book)
  {
    s.dim < 0x1_0000 && ValidLengths(s.lengthlist) && ILog(s.dim) + ILog(|s.lengthlist|) <= 24
    && MappingFits(s.mapping, |s.lengthlist|, s.dim)
  }

  /** A book that a header can carry. */
  ghost predicate Packable(s: Book)
  {
    && Readable(s) && Writable(s.lengthlist) && Kraft(s.lengthlist, |s.lengthlist|) <= WORD
    && (s.mapping.Mapping? && !s.mapping.explicit ==> s.dim >= 1)
  }

  ghost function ValueBits(q: seq<int>, w: nat, i: nat): seq<bool>
    requires i <= |q|
    decreases |q| - i
  {
    if i == |q| then [] else ToBits(Abs(q[i]), w) + ValueBits(q, w, i + 1)
  }

  ghost function MappingBits(m: Mapping): seq<bool>
  {
    match m
    case NoMapping => ToBits(0, 4)
    case Mapping(explicit, qMin, qDelta, qQuant, qSequencep, quantlist) =>
      ToBits(if explicit then 2 else 1, 4) + (ToBits(qMin, 32) + (ToBits(qDelta, 32)
        + (ToBits(if qQuant > 0 then qQuant - 1 else 0, 4)
           + (ToBits(if qSequencep then 1 else 0, 1) + ValueBits(quantlist, qQuant, 0)))))
  }

  ghost function BookBits(s: Book): seq<bool>
    requires ValidLengths(s.lengthlist)
  {
    ToBits(SYNC, 24)
        + (ToBits(s.dim, 16) + (ToBits(|s.lengthlist|, 24) + (LengthBits(s.lengthlist) + MappingBits(s.mapping))))
  }

  method PackValues(q: seq<int>, quantvals: nat, w: nat, opb: OggPackBuffer)
    requires quantvals == |q|
    modifies opb
    ensures opb.bits == old(opb.bits) + ValueBits(q, w, 0) && opb.pos == old(opb.pos)
  {
    hide ToBits;
    ghost var start := opb.bits;
    var i := 0;
    while i < quantvals
      invariant 0 <= i <= |q| && opb.pos == old(opb.pos) && opb.bits + ValueBits(q, w, i) == start + ValueBits(q, w, 0)
    {
      Regroup(opb.bits, ToBits(Abs(q[i]), w), ValueBits(q, w, i + 1));
      opb.Write(Abs(q[i]), w);
      i := i + 1;
    }
    assert opb.bits + [] == opb.bits;
  }

  /** The number of values, as both ends compute it. */
  method CountValues(explicit: bool, entries: nat, dim: nat, guess: nat) returns (quantvals: nat)
    ensures quantvals == Listed(explicit, entries, dim)
  {
    if explicit {
      quantvals := entries * dim;
    } else if dim == 0 {
      quantvals := 0;
    } else {
      quantvals := Maptype1Quantvals(entries, dim, guess);
    }
  }

  method PackMapping(m: Mapping, entries: nat, dim: nat, guess: nat, opb: OggPackBuffer)
    requires m.Mapping? ==> m.qQuant >= 1 && |m.quantlist| == Listed(m.explicit, entries, dim)
    modifies opb
    ensures opb.bits == old(opb.bits) + MappingBits(m) && opb.pos == old(opb.pos)
  {
    hide ToBits, ValueBits;
    if m == NoMapping {
      opb.Write(0, 4);
      return;
    }
    ghost var v := ValueBits(m.quantlist, m.qQuant, 0);
    ghost var e := ToBits(if m.qSequencep then 1 else 0, 1);
    ghost var d, c, b := ToBits(m.qQuant - 1, 4), ToBits(m.qDelta, 32), ToBits(m.qMin, 32);
    Regroup(opb.bits, ToBits(if m.explicit then 2 else 1, 4), b + (c + (d + (e + v))));
    opb.Write(if m.explicit then 2 else 1, 4);
    Regroup(opb.bits, b, c + (d + (e + v)));
    opb.Write(m.qMin, 32);
    Regroup(opb.bits, c, d + (e + v));
    opb.Write(m.qDelta, 32);
    Regroup(opb.bits, d, e + v);
    opb.Write(m.qQuant - 1, 4);
    Regroup(opb.bits, e, v);
    opb.Write(if m.qSequencep then 1 else 0, 1);
    var quantvals := CountValues(m.explicit, entries, dim, guess);
    PackValues(m.quantlist, quantvals, m.qQuant, opb);
  }

  /** Write a book; `guess` is the floating-point start of the search for the number of values. */
  method Pack(s: Book, guess: nat, opb: OggPackBuffer)
    requires Packable(s)
    modifies opb
    ensures opb.bits == old(opb.bits) + BookBits(s) && opb.pos == old(opb.pos)
  {
    hide ToBits, LengthBits, MappingBits, Kraft, ILog, ValidLengths;
    ghost var l, m := LengthBits(s.lengthlist), MappingBits(s.mapping);
    ghost var a, b, c := ToBits(SYNC, 24), ToBits(s.dim, 16), ToBits(|s.lengthlist|, 24);
    Regroup(opb.bits, a, b + (c + (l + m)));
    opb.Write(SYNC, 24);
    Regroup(opb.bits, b, c + (l + m));
    opb.Write(s.dim, 16);
    Regroup(opb.bits, c, l + m);
    opb.Write(|s.lengthlist|, 24);
    Regroup(opb.bits, l, m);
    PackLengths(s.lengthlist, opb);
    PackMapping(s.mapping, |s.lengthlist|, s.dim, guess, opb);
  }

  ghost predicate Read(q: seq<int>, w: nat)
  {
    forall i :: 0 <= i < |q| ==> 0 <= q[i] < Pow2(w)
  }

  lemma ValueGroups(q: seq<int>, w: nat, i: nat, more: seq<bool>)
    requires i <= |q|
    ensures ValueBits(q, w, i) + more
         == if i == |q| then more else ToBits(Abs(q[i]), w) + (ValueBits(q, w, i + 1) + more)
  {
    hide ToBits;
    if i < |q| {
      Regroup(ToBits(Abs(q[i]), w), ValueBits(q, w, i + 1), more);
    } else {
      assert [] + more == more;
    }
  }

  lemma ReadSoFar(list: seq<int>, w: nat, v: int)
    ensures list == [] ==> Read(list, w)
    ensures Read(list, w) && 0 <= v < Pow2(w) ==> Read(list + [v], w)
  {
  }

  lemma MagnitudeAt(q: seq<int>, w: nat, i: nat)
    requires ValuesFit(q, w) && i < |q|
    ensures Abs(q[i]) < Pow2(w) && Magnitudes(q)[i] == Abs(q[i])
    ensures Magnitudes(q)[..i] + [Abs(q[i])] == Magnitudes(q)[..i + 1]
  {
  }

  /** Values of `w` bits each. */
  ghost predicate ValuesAt(bits: seq<bool>, q: seq<int>, w: nat, rest: seq<bool>)
  {
    |q| * w <= |bits| && rest == bits[|q| * w..] && forall i :: 0 <= i < |q| ==> ValueAt(bits, w, i, q[i])
  }

  ghost predicate ValueAt(bits: seq<bool>, w: nat, i: nat, v: int)
  {
    Stands(bits, i * w, w, v)
  }

  lemma NoValues(bits: seq<bool>, w: nat)
    ensures ValuesAt(bits, [], w, bits)
  {
  }

  lemma NextValueAt(bits: seq<bool>, q: seq<int>, w: nat, mid: seq<bool>, v: int)
    requires ValuesAt(bits, q, w, mid) && w <= |mid| && v == FromBits(mid[..w])
    ensures ValuesAt(bits, q + [v], w, mid[w..])
  {
    hide FromBits, Stands;
    FrontStands(mid, w, v);
    NextStands(bits, |q| * w, w, v);
    assert (|q| + 1) * w == |q| * w + w;
    assert ValueAt(bits, w, |q|, v);
  }

  method UnpackValues(n: nat, w: nat, opb: OggPackBuffer, ghost known: bool, ghost q: seq<int>, ghost more: seq<bool>)
      returns (list: seq<int>)
    requires opb.Valid() && (known ==> |q| == n && ValuesFit(q, w) && opb.Rest() == ValueBits(q, w, 0) + more)
    modifies opb
    ensures opb.Valid() && opb.bits == old(opb.bits) && |list| == n
    ensures n > 0 && list[n - 1] != -1 ==> Read(list, w)
    ensures n == 0 || list[n - 1] != -1 ==> ValuesAt(old(opb.Rest()), list, w, opb.Rest())
    ensures known ==> list == Magnitudes(q) && opb.Rest() == more && (n > 0 ==> list[n - 1] != -1)
  {
    hide ToBits, Pow2, ValueBits, Read, ValuesFit, Magnitudes, OggPackBuffer.Rest, ValuesAt, FromBits;
    ghost var bits := opb.Rest();
    NoValues(bits, w);
    list := [];
    ReadSoFar([], w, 0);
    var i := 0;
    while i < n
      invariant 0 <= i <= n && |list| == i && opb.Valid() && opb.bits == old(opb.bits)
      invariant i > 0 && list[i - 1] == -1 ==> opb.Rest() == [] && w > 0
      invariant i == 0 || list[i - 1] != -1 ==> Read(list, w) && ValuesAt(bits, list, w, opb.Rest())
      invariant known ==> list == Magnitudes(q)[..i] && opb.Rest() == ValueBits(q, w, i) + more
    {
      if known {
        ValueGroups(q, w, i, more);
        MagnitudeAt(q, w, i);
      }
      ghost var mid := opb.Rest();
      var v := opb.ReadBack(w, known, if known then Abs(q[i]) else 0,
                            if known then ValueBits(q, w, i + 1) + more else []);
      ReadSoFar(list, w, v);
      if v >= 0 && (i == 0 || list[i - 1] != -1) {
        NextValueAt(bits, list, w, mid, v);
      }
      list := list + [v];
      i := i + 1;
    }
    if known {
      ValueGroups(q, w, n, more);
      if n > 0 {
        MagnitudeAt(q, w, n - 1);
      }
    }
  }

  lemma {:induction false} ValueSize(q: seq<int>, w: nat, i: nat)
    requires i <= |q|
    ensures |ValueBits(q, w, i)| == (|q| - i) * w
    decreases |q| - i
  {
    hide ToBits;
    if i < |q| {
      ValueSize(q, w, i + 1);
      assert (|q| - i) * w == (|q| - i - 1) * w + w;
    }
  }

  /** The book with the signs of its values gone. */
  function Unsigned(m: Mapping): Mapping
  {
    match m
    case NoMapping => NoMapping
    case Mapping(explicit, qMin, qDelta, qQuant, qSequencep, quantlist) =>
      Mapping(explicit, qMin, qDelta, qQuant, qSequencep, Magnitudes(quantlist))
  }

  /** The mapping as the packet continues with it. */
  lemma MappingGroups(m: Mapping, more: seq<bool>)
    requires m.Mapping? && m.qQuant >= 1
    ensures MappingBits(m) + more
         == ToBits(if m.explicit then 2 else 1, 4)
             + (ToBits(m.qMin, 32) + (ToBits(m.qDelta, 32) + (ToBits(m.qQuant - 1, 4)
            + (ToBits(if m.qSequencep then 1 else 0, 1) + (ValueBits(m.quantlist, m.qQuant, 0) + more)))))
  {
    hide ToBits, ValueBits;
    var v := ValueBits(m.quantlist, m.qQuant, 0);
    var e := ToBits(if m.qSequencep then 1 else 0, 1);
    var d, c, b := ToBits(m.qQuant - 1, 4), ToBits(m.qDelta, 32), ToBits(m.qMin, 32);
    var a := ToBits(if m.explicit then 2 else 1, 4);
    Regroup(e, v, more);
    Regroup(d, e + v, more);
    Regroup(c, d + (e + v), more);
    Regroup(b, c + (d + (e + v)), more);
    Regroup(a, b + (c + (d + (e + v))), more);
  }

  method UnpackMapping(entries: nat, dim: nat, guess: nat, opb: OggPackBuffer, ghost known: bool, ghost m: Mapping,
                       ghost more: seq<bool>)
    returns (result: Option<Mapping>)
    requires opb.Valid()
    requires known ==>
      |opb.bits| % 8 == 0 && |more| >= 7 && opb.Rest() == MappingBits(m) + more && MappingFits(m, entries, dim)
    modifies opb
    ensures opb.Valid() && opb.bits == old(opb.bits)
    ensures result.Some? ==> MappingFits(result.value, entries, dim)
    ensures result.Some? ==> MappingAt(old(opb.Rest()), result.value, opb.Rest())
    ensures known ==> result == Some(Unsigned(m)) && opb.Rest() == more
  {
    hide ToBits, ValueBits, Pow2, MappingBits, Magnitudes, AfterType, FromBits, FieldsAt, OggPackBuffer.Rest, Stands;
    FieldPowers();
    ghost var bits := opb.Rest();
    ghost var b := if !known then [] else if m == NoMapping then more else AfterType(m, more);
    if known {
      MappingTyped(m, entries, dim, more);
    }
    var maptype := opb.ReadBack(4, known, if m == NoMapping then 0 else if m.explicit then 2 else 1, b);
    if maptype >= 0 {
      FrontStands(bits, 4, maptype);
    }
    if maptype == 0 {
      return Some(NoMapping);
    }
    if maptype != 1 && maptype != 2 {
      return None;
    }
    result := UnpackFields(maptype == 2, entries, dim, guess, opb, known, m, more);
  }

  ghost function AfterType(m: Mapping, more: seq<bool>): seq<bool>
    requires m.Mapping?
  {
    ToBits(m.qMin, 32) + (ToBits(m.qDelta, 32) + (ToBits(if m.qQuant > 0 then m.qQuant - 1 else 0, 4)
      + (ToBits(if m.qSequencep then 1 else 0, 1) + (ValueBits(m.quantlist, m.qQuant, 0) + more))))
  }

  lemma MappingTyped(m: Mapping, entries: nat, dim: nat, more: seq<bool>)
    requires MappingFits(m, entries, dim)
    ensures MappingBits(m) + more
         == ToBits(if m == NoMapping then 0 else if m.explicit then 2 else 1, 4)
             + (if m == NoMapping then more else AfterType(m, more))
  {
    hide ToBits, ValueBits;
    if m != NoMapping {
      MappingGroups(m, more);
    }
  }

  /** The fields and the values of a mapping. */
  method UnpackFields(explicit: bool, entries: nat, dim: nat, guess: nat, opb: OggPackBuffer, ghost known: bool,
                      ghost m: Mapping, ghost more: seq<bool>)
    returns (result: Option<Mapping>)
    requires opb.Valid()
    requires known ==>
      && |opb.bits| % 8 == 0 && |more| >= 7 && m.Mapping? && m.explicit == explicit && MappingFits(m, entries, dim)
      && opb.Rest() == AfterType(m, more)
    modifies opb
    ensures opb.Valid() && opb.bits == old(opb.bits)
    ensures result.Some? ==> MappingFits(result.value, entries, dim)
    ensures result.Some? ==>
      && result.value.Mapping? && result.value.explicit == explicit
      && FieldsAt(old(opb.Rest()), result.value, opb.Rest())
    ensures known ==> result == Some(Unsigned(m)) && opb.Rest() == more
  {
    hide ToBits, ValueBits, Pow2, Magnitudes, ValuesFit, Listed, Read, FromBits, OggPackBuffer.Rest, ValuesAt;
    hide FieldsAt;
    FieldPowers();
    ghost var bits := opb.Rest();
    ghost var v := if known then ValueBits(m.quantlist, m.qQuant, 0) + more else [];
    ghost var e := if known then ToBits(if m.qSequencep then 1 else 0, 1) + v else [];
    ghost var d := if known then ToBits(m.qQuant - 1, 4) + e else [];
    var qMin := opb.ReadBack(32, known, if known then m.qMin else 0, if known then ToBits(m.qDelta, 32) + d else []);
    var qDelta := opb.ReadBack(32, known, if known then m.qDelta else 0, d);
    var qQuant := opb.ReadBack(4, known, if known then m.qQuant - 1 else 0, e);
    qQuant := qQuant + 1;
    var qSequencep := opb.ReadBack(1, known, if known && m.qSequencep then 1 else 0, v);
    if qSequencep == -1 {
      return None;
    }
    FieldsRead(bits, qMin, qDelta, qQuant - 1, qSequencep);
    var quantvals := CountValues(explicit, entries, dim, guess);
    var list := UnpackList(quantvals, qQuant, opb, known, if known then m.quantlist else [], more);
    if list == None {
      return None;
    }
    result := Some(Mapping(explicit, qMin, qDelta, qQuant, qSequencep == 1, list.value));
    FieldsMake(bits, result.value, qSequencep, opb.Rest());
  }

  /** Minimum and step, the width of a value less one, whether they make a sequence, and the values. */
  ghost predicate FieldsAt(bits: seq<bool>, m: Mapping, rest: seq<bool>)
    requires m.Mapping?
  {
    && Stands(bits, 0, 32, m.qMin) && Stands(bits, 32, 32, m.qDelta) && Stands(bits, 64, 4, m.qQuant - 1)
    && Stands(bits, 68, 1, if m.qSequencep then 1 else 0) && 69 <= |bits|
    && ValuesAt(bits[69..], m.quantlist, m.qQuant, rest)
  }

  lemma FieldsRead(bits: seq<bool>, a: int, b: int, c: int, d: int)
    requires 32 <= |bits| && a == FromBits(bits[..32])
    requires 32 <= |bits[32..]| && b == FromBits(bits[32..][..32])
    requires 4 <= |bits[32..][32..]| && c == FromBits(bits[32..][32..][..4])
    requires 1 <= |bits[32..][32..][4..]| && d == FromBits(bits[32..][32..][4..][..1])
    ensures Stands(bits, 0, 32, a) && Stands(bits, 32, 32, b) && Stands(bits, 64, 4, c) && Stands(bits, 68, 1, d)
    ensures 69 <= |bits| && bits[32..][32..][4..][1..] == bits[69..]
  {
    hide FromBits, Stands;
    FrontStands(bits, 32, a);
    FrontStands(bits[32..], 32, b);
    NextStands(bits, 32, 32, b);
    FrontStands(bits[64..], 4, c);
    NextStands(bits, 64, 4, c);
    FrontStands(bits[68..], 1, d);
    NextStands(bits, 68, 1, d);
  }

  lemma FieldsMake(bits: seq<bool>, m: Mapping, d: int, rest: seq<bool>)
    requires m.Mapping? && Stands(bits, 0, 32, m.qMin) && Stands(bits, 32, 32, m.qDelta)
    requires Stands(bits, 64, 4, m.qQuant - 1) && Stands(bits, 68, 1, d) && 0 <= d <= 1 && m.qSequencep == (d == 1)
    requires 69 <= |bits| && ValuesAt(bits[69..], m.quantlist, m.qQuant, rest)
    ensures FieldsAt(bits, m, rest)
  {
    hide ValuesAt;
  }

  /** The kind of mapping in four bits, and what it has. */
  ghost predicate MappingAt(bits: seq<bool>, m: Mapping, rest: seq<bool>)
  {
    && 4 <= |bits|
    && match m
       case NoMapping => Stands(bits, 0, 4, 0) && rest == bits[4..]
       case Mapping(explicit, _, _, _, _, _) =>
         Stands(bits, 0, 4, if explicit then 2 else 1) && FieldsAt(bits[4..], m, rest)
  }

  /** The values, if the packet is long enough to hold them. */
  method UnpackList(quantvals: nat, w: nat, opb: OggPackBuffer, ghost known: bool, ghost q: seq<int>,
                    ghost more: seq<bool>) returns (result: Option<seq<int>>)
    requires opb.Valid()
    requires known ==>
      && |opb.bits| % 8 == 0 && |more| >= 7 && |q| == quantvals && ValuesFit(q, w)
      && opb.Rest() == ValueBits(q, w, 0) + more
    modifies opb
    ensures opb.Valid() && opb.bits == old(opb.bits)
    ensures result.Some? ==> |result.value| == quantvals && ValuesFit(result.value, w)
    ensures result.Some? ==> ValuesAt(old(opb.Rest()), result.value, w, opb.Rest())
    ensures known ==> result == Some(Magnitudes(q)) && opb.Rest() == more
  {
    hide ToBits, ValueBits, Pow2, Magnitudes, ValuesFit, Read;
    if known {
      ValueSize(q, w, 0);
      assert opb.pos + |ValueBits(q, w, 0)| + |more| == |opb.bits|;
      GuardList(|opb.bits|, opb.pos, quantvals * w, quantvals * w, |more|);
    }
    if !EnoughBytes(|opb.bits|, opb.pos, (quantvals * w + 7) / 8) {
      return None;
    }
    var list := UnpackValues(quantvals, w, opb, known, q, more);
    if quantvals > 0 && list[quantvals - 1] == -1 {
      return None;
    }
    ReadFits(list, w);
    result := Some(list);
  }

  lemma ReadFits(q: seq<int>, w: nat)
    requires q == [] || Read(q, w)
    ensures ValuesFit(q, w)
  {
  }

  /** The sync word, the dimension and the number of entries; then the lengths; then the mapping. */
  ghost predicate BookAt(bits: seq<bool>, b: Book, rest: seq<bool>)
  {
    && 64 <= |bits| && FromBits(bits[..24]) == SYNC && FromBits(bits[24..40]) == b.dim
    && FromBits(bits[40..64]) == |b.lengthlist|
    && exists mid :: ContentsAt(bits[64..], b, mid, rest)
  }

  ghost predicate ContentsAt(bits: seq<bool>, b: Book, mid: seq<bool>, rest: seq<bool>)
  {
    LengthsAt(bits, b.lengthlist, mid) && MappingAt(mid, b.mapping, rest)
  }

  lemma HeadReads(bits: seq<bool>, dim: nat, entries: nat)
    requires 24 <= |bits| && FromBits(bits[..24]) == SYNC
    requires 16 <= |bits[24..]| && dim == FromBits(bits[24..][..16])
    requires 24 <= |bits[24..][16..]| && entries == FromBits(bits[24..][16..][..24])
    ensures SizesAt(bits, dim, entries) && bits[24..][16..][24..] == bits[64..]
  {
    hide FromBits;
    assert bits[24..][..16] == bits[24..40];
    assert bits[24..][16..] == bits[40..] && bits[40..][..24] == bits[40..64];
  }

  /** Read a book. Whatever the packet holds, an accepted book is in range; where it holds what was
      written for a book `s`, the same lengths come back, in whichever form they were written, and the same
      values but for their signs, from exactly the bits that were written. */
  method Unpack(guess: nat, opb: OggPackBuffer, ghost known: bool, ghost s: Book, ghost more: seq<bool>)
      returns (result: Option<Book>)
    requires opb.Valid()
    requires (known ==> Packable(s) && |opb.bits| % 8 == 0 && |more| >= 7 && opb.Rest() == BookBits(s) + more)
    modifies opb
    ensures opb.Valid() && opb.bits == old(opb.bits)
    ensures result.Some? ==> Readable(result.value)
    ensures result.Some? ==> BookAt(old(opb.Rest()), result.value, opb.Rest())
    ensures known ==> opb.Rest() == more && result == Some(Book(s.dim, s.lengthlist, Unsigned(s.mapping)))
  {
    ghost var start := opb.Rest();
    hide ToBits, LengthBits, MappingBits, Kraft, ILog, Pow2, MappingFits, BookBits, LengthsAt, MappingAt, FromBits;
    hide OggPackBuffer.Rest, SizesAt;
    FieldPowers();
    ghost var m := if known then MappingBits(s.mapping) else [];
    var ok, dim, entries := UnpackSizes(opb, known, s, more);
    if !ok {
      return None;
    }
    var list;
    ok, list := UnpackLengths(entries, opb, known, s.lengthlist, m + more);
    if !ok {
      return None;
    }
    ghost var mid := opb.Rest();
    var mapping := UnpackMapping(entries, dim, guess, opb, known, s.mapping, more);
    if mapping == None {
      return None;
    }
    MappingNeedsBits(mid, mapping.value, opb.Rest());
    result := Some(Book(dim, list, mapping.value));
    SizesAre(start, dim, entries);
    assert ContentsAt(start[64..], result.value, mid, opb.Rest());
  }

  ghost predicate SizesAt(bits: seq<bool>, dim: nat, entries: nat)
  {
    64 <= |bits| && FromBits(bits[..24]) == SYNC && FromBits(bits[24..40]) == dim && FromBits(bits[40..64]) == entries
  }

  lemma SizesAre(bits: seq<bool>, dim: nat, entries: nat)
    requires SizesAt(bits, dim, entries)
    ensures 64 <= |bits| && FromBits(bits[..24]) == SYNC && FromBits(bits[24..40]) == dim
    ensures FromBits(bits[40..64]) == entries
  {
    hide FromBits;
  }

  /** The sync word, the dimension, and the number of entries. */
  method UnpackSizes(opb: OggPackBuffer, ghost known: bool, ghost s: Book, ghost more: seq<bool>)
      returns (ok: bool, dim: nat, entries: nat)
    requires opb.Valid() && (known ==> Packable(s) && opb.Rest() == BookBits(s) + more)
    modifies opb
    ensures opb.Valid() && opb.bits == old(opb.bits)
    ensures ok ==>
      && dim < 0x1_0000 && entries < 0x100_0000 && ILog(dim) + ILog(entries) <= 24
      && SizesAt(old(opb.Rest()), dim, entries) && opb.Rest() == old(opb.Rest())[64..]
    ensures known ==>
      && ok && dim == s.dim && entries == |s.lengthlist|
      && opb.Rest() == LengthBits(s.lengthlist) + (MappingBits(s.mapping) + more)
  {
    hide ToBits, LengthBits, MappingBits, Kraft, ILog, Pow2, MappingFits, BookBits, FromBits, OggPackBuffer.Rest;
    FieldPowers();
    ghost var start := opb.Rest();
    ghost var l, m := if known then LengthBits(s.lengthlist) else [], if known then MappingBits(s.mapping) else [];
    ghost var c := ToBits(|s.lengthlist|, 24) + (l + (m + more));
    if known {
      BookGroups(s, more);
    }
    var sync := opb.ReadBack(24, known, SYNC, ToBits(s.dim, 16) + c);
    if sync != SYNC {
      return false, 0, 0;
    }
    var d := opb.ReadBack(16, known, s.dim, c);
    var n := opb.ReadBack(24, known, |s.lengthlist|, l + (m + more));
    if n == -1 || ILog(d) + ILog(n) > 24 {
      return false, 0, 0;
    }
    HeadReads(start, d, n);
    return true, d, n;
  }

  lemma MappingNeedsBits(bits: seq<bool>, m: Mapping, rest: seq<bool>)
    requires MappingAt(bits, m, rest)
    ensures bits != []
  {
  }

  lemma BookGroups(s: Book, more: seq<bool>)
    requires ValidLengths(s.lengthlist)
    ensures BookBits(s) + more
         == ToBits(SYNC, 24)
             + (ToBits(s.dim, 16)
                + (ToBits(|s.lengthlist|, 24) + (LengthBits(s.lengthlist) + (MappingBits(s.mapping) + more))))
  {
    hide ToBits, LengthBits, MappingBits;
    var l, m := LengthBits(s.lengthlist), MappingBits(s.mapping);
    var a, b, c := ToBits(SYNC, 24), ToBits(s.dim, 16), ToBits(|s.lengthlist|, 24);
    Regroup(l, m, more);
    Regroup(c, l + m, more);
    Regroup(b, c + (l + m), more);
    Regroup(a, b + (c + (l + m)), more);
  }
}
