/** Lattice codebooks: entry numbers as mixed digits, values as a centred grid, and the encoder's search
    for the entry nearest to a vector. */
module Lattice {
  import opened BitMath

  function Power(base: nat, n: nat): (r: nat)
    ensures base > 0 ==> r > 0
  {
    if n == 0 then 1 else base * Power(base, n - 1)
  }

  /** `i` without its lowest digit, and that digit. */
  function Rest(i: nat, q: nat): nat
    requires q > 0
  {
    i / q
  }

  function Low(i: nat, q: nat): (d: nat)
    requires q > 0
    ensures d < q
  {
    i % q
  }

  /** Digit `k` of `i` in base `q`, lowest first. */
  function Digit(i: nat, q: nat, k: nat): (d: nat)
    requires q > 0
    ensures d < q
    decreases k
  {
    if k == 0 then Low(i, q) else Digit(Rest(i, q), q, k - 1)
  }

  /** The digit as the decoder computes it, by one division. */
  lemma {:induction false} DigitIsQuotient(i: nat, q: nat, k: nat)
    requires q > 0
    ensures Digit(i, q, k) == (i / Power(q, k)) % q
    decreases k
  {
    if k > 0 {
      hide Rest, Low;
      DigitIsQuotient(Rest(i, q), q, k - 1);
      RestOfRest(i, q, Power(q, k - 1));
    }
  }

  lemma RestOfRest(i: nat, q: nat, p: nat)
    requires q > 0 && p > 0
    ensures q * p > 0 && i / (q * p) == Rest(i, q) / p
  {
    DivDiv(i, q, p);
  }

  /** 0, -1, 1, -2, 2, ... */
  function ZigZag(m: nat): int
  {
    if m % 2 == 1 then -((m + 1) / 2) else m / 2
  }

  /** A codebook of vectors of `dim` values. The encoder works with a grid, each value one of `quantvals` steps
      of `del` from `minval` up; the decoder has a list of the entries' vectors, whatever they are. */
  datatype Book = Book(dim: nat, entries: nat, quantvals: nat, minval: int, del: int, quantlist: seq<nat>,
                       lengthlist: seq<nat>, valuelist: seq<seq<int>>)
  {
    /** As the encoder's tools make them: an odd number of steps, centred on zero, listed outward. */
    ghost predicate Centred()
    {
      && 1 <= dim <= 8 && del >= 1 && quantvals % 2 == 1 && minval == -Middle() * del
      && |lengthlist| == entries && Power(quantvals, dim) <= entries && |quantlist| == quantvals
      && forall m :: 0 <= m < quantvals ==> quantlist[m] == Middle() + ZigZag(m)
    }

    /** The decoder has a vector for each of `n` entries. */
    ghost predicate Decodable(n: nat)
    {
      dim > 0 && |valuelist| == n && forall i :: 0 <= i < n ==> |valuelist[i]| == dim
    }

    /** The decoder's vectors are those of the encoder's grid. */
    ghost predicate ListsGrid()
    {
      && quantvals > 0 && |quantlist| == quantvals
      && forall i :: 0 <= i < |valuelist| ==> valuelist[i] == Vector(i)
    }

    function Middle(): int
    {
      quantvals / 2
    }

    /** What the grid holds as component `k` of entry `i`. */
    function Value(i: nat, k: nat): int
      requires quantvals > 0 && |quantlist| == quantvals
    {
      quantlist[Digit(i, quantvals, k)] * del + minval
    }

    /** The vector of entry `i`. */
    function Vector(i: nat): (v: seq<int>)
      requires quantvals > 0 && |quantlist| == quantvals
      ensures |v| == dim
    {
      seq(dim, k requires 0 <= k < dim => Value(i, k))
    }
  }

  /** The values form a symmetric grid: digit by digit, outward from zero. */
  lemma ValueIsZigZag(c: Book, i: nat, k: nat)
    requires c.Centred()
    ensures c.Value(i, k) == ZigZag(Digit(i, c.quantvals, k)) * c.del
    ensures -c.Middle() <= ZigZag(Digit(i, c.quantvals, k)) <= c.Middle()
  {
    hide Digit, Power;
    var d := Digit(i, c.quantvals, k);
    assert c.quantlist[d] == c.Middle() + ZigZag(d);
    FromMiddle(c.Middle(), ZigZag(d), c.del);
  }

  lemma FromMiddle(m: int, z: int, del: int)
    ensures (m + z) * del + -m * del == z * del
  {
  }

  // ---------------------------------------------------------------------------------------------
  // The odometer
  // ---------------------------------------------------------------------------------------------

  lemma DivStep(i: nat, q: nat)
    requires q > 0
    ensures if Low(i, q) == q - 1 then Rest(i + 1, q) == Rest(i, q) + 1 && Low(i + 1, q) == 0
            else Rest(i + 1, q) == Rest(i, q) && Low(i + 1, q) == Low(i, q) + 1
  {
    DivMod(i, q);
    if i % q == q - 1 {
      assert i + 1 == (i / q + 1) * q;
      DivModUnique(i + 1, i / q + 1, q, 0);
    } else {
      DivModUnique(i + 1, i / q, q, i % q + 1);
    }
  }

  /** Counting up by one: full digits up to `j` roll over, digit `j` goes up, the rest stand still. */
  lemma {:induction false} NextDigits(i: nat, i': nat, q: nat, j: nat)
    requires i' == i + 1 && q > 0 && (forall k :: 0 <= k < j ==> Digit(i, q, k) == q - 1) && Digit(i, q, j) < q - 1
    ensures forall k :: 0 <= k < j ==> Digit(i', q, k) == 0
    ensures Digit(i', q, j) == Digit(i, q, j) + 1
    ensures forall k :: k > j ==> Digit(i', q, k) == Digit(i, q, k)
    decreases j
  {
    DivStep(i, q);
    if j > 0 {
      assert Digit(i, q, 0) == q - 1;
      forall k | 0 <= k < j - 1
        ensures Digit(Rest(i, q), q, k) == q - 1
      {
        assert Digit(i, q, k + 1) == q - 1;
      }
      NextDigits(Rest(i, q), Rest(i', q), q, j - 1);
      forall k | 0 < k
        ensures k < j ==> Digit(i', q, k) == 0
        ensures k > j ==> Digit(i', q, k) == Digit(i, q, k)
      {
        assert Digit(i', q, k) == Digit(Rest(i', q), q, k - 1);
      }
    }
  }

  lemma {:induction false} AllDigitsFull(i: nat, q: nat, n: nat)
    requires q > 0 && forall k :: 0 <= k < n ==> Digit(i, q, k) == q - 1
    ensures i + 1 >= Power(q, n)
    decreases n
  {
    if n > 0 {
      assert Digit(i, q, 0) == q - 1;
      forall k | 0 <= k < n - 1
        ensures Digit(Rest(i, q), q, k) == q - 1
      {
        assert Digit(i, q, k + 1) == q - 1;
      }
      AllDigitsFull(Rest(i, q), q, n - 1);
      DivMod(i, q);
      MulMonotone(Power(q, n - 1), i / q + 1, q);
    }
  }

  /** `e` spells entry `i`: its first components are the entry's vector. */
  ghost predicate Spells(c: Book, e: seq<int>, i: nat)
    requires c.quantvals > 0
  {
    |e| == 8 && forall k :: 0 <= k < 8 ==> e[k] == ZigZag(Digit(i, c.quantvals, k)) * c.del
  }

  lemma SpellsVector(c: Book, e: seq<int>, i: nat)
    requires c.Centred() && Spells(c, e, i)
    ensures e[..c.dim] == c.Vector(i)
  {
    forall k | 0 <= k < c.dim
      ensures e[k] == c.Value(i, k)
    {
      ValueIsZigZag(c, i, k);
    }
  }

  /** A component is at the top value exactly when its digit is full. */
  lemma TopIsFull(c: Book, d: nat)
    requires c.Centred() && d < c.quantvals
    ensures ZigZag(d) * c.del >= c.minval + c.del * (c.quantvals - 1) <==> d == c.quantvals - 1
    ensures ZigZag(d) * c.del >= 0 <==> d % 2 == 0
  {
    var m, del := c.Middle(), c.del;
    assert c.quantvals == 2 * m + 1;
    assert c.minval + del * (c.quantvals - 1) == m * del by {
      assert -m * del + del * (2 * m) == m * del;
    }
    if d == 2 * m {
    } else {
      assert ZigZag(d) <= m - 1;
      MulMonotone(ZigZag(d), m - 1, del);
      assert (m - 1) * del == m * del - del;
    }
    if d % 2 == 1 {
      MulMonotone(ZigZag(d), -1, del);
    } else {
      MulMonotone(0, ZigZag(d), del);
    }
  }

  /** Turning a component over: 0, -del, del, -2 del, ... */
  lemma TurnOver(c: Book, d: nat)
    requires c.Centred() && d + 1 < c.quantvals
    ensures var v := ZigZag(d) * c.del; ZigZag(d + 1) * c.del == if v >= 0 then -(v + c.del) else -v
  {
    TopIsFull(c, d);
    if d % 2 == 0 {
      assert ZigZag(d + 1) == -(ZigZag(d) + 1);
      assert -(ZigZag(d) + 1) * c.del == -(ZigZag(d) * c.del + c.del);
    } else {
      assert ZigZag(d + 1) == -ZigZag(d);
      assert -ZigZag(d) * c.del == -(ZigZag(d) * c.del);
    }
  }

  /** Not every component can be at the top before the last entry the odometer can name. */
  lemma RoomLeft(c: Book, e: seq<int>, i: nat, j: nat)
    requires c.Centred() && Spells(c, e, i) && i + 1 < Power(c.quantvals, 8) && j <= 8
    requires forall k :: 0 <= k < j ==> e[k] >= c.minval + c.del * (c.quantvals - 1)
    ensures j < 8 && forall k :: 0 <= k < j ==> Digit(i, c.quantvals, k) == c.quantvals - 1
  {
    forall k | 0 <= k < j
      ensures Digit(i, c.quantvals, k) == c.quantvals - 1
    {
      TopIsFull(c, Digit(i, c.quantvals, k));
    }
    AllDigitsFull(i, c.quantvals, j);
  }

  /** Every component is at the top: the loop that turns them would look at a ninth. */
  ghost predicate AtTop(c: Book, e: seq<int>)
    requires |e| == 8
  {
    forall k :: 0 <= k < 8 ==> e[k] >= c.minval + c.del * (c.quantvals - 1)
  }

  lemma LastStep(i: nat, q: nat, p: nat)
    requires q > 0 && i + 1 == q * p
    ensures p > 0 && Rest(i, q) + 1 == p && Low(i, q) == q - 1
  {
    assert i == (p - 1) * q + (q - 1);
    DivModUnique(i, p - 1, q, q - 1);
  }

  lemma {:induction false} LastDigits(i: nat, q: nat, n: nat, k: nat)
    requires q > 0 && i + 1 == Power(q, n) && k < n
    ensures Digit(i, q, k) == q - 1
  {
    LastStep(i, q, Power(q, n - 1));
    if k > 0 {
      LastDigits(Rest(i, q), q, n - 1, k - 1);
    }
  }

  /** That is so at one entry exactly: the last that eight digits can name. */
  lemma TopIsLast(c: Book, e: seq<int>, i: nat)
    requires c.Centred() && Spells(c, e, i) && i < Power(c.quantvals, 8)
    ensures AtTop(c, e) <==> i + 1 == Power(c.quantvals, 8)
  {
    hide Book.Centred, Power, ZigZag, Digit;
    OddCount(c);
    if i + 1 == Power(c.quantvals, 8) {
      forall k | 0 <= k < 8
        ensures e[k] >= c.minval + c.del * (c.quantvals - 1)
      {
        LastDigits(i, c.quantvals, 8, k);
        TopIsFull(c, Digit(i, c.quantvals, k));
      }
    } else if AtTop(c, e) {
      RoomLeft(c, e, i, 8);
    }
  }

  /** Where the odometer stands at entry `i`. */
  ghost function Odometer(c: Book, i: nat): (e: seq<int>)
    requires c.quantvals > 0
    ensures |e| == 8 && Spells(c, e, i)
  {
    seq(8, k requires 0 <= k < 8 => ZigZag(Digit(i, c.quantvals, k)) * c.del)
  }

  /** The search looks past the eight components exactly if it has that many entries to go through; a book of
      dimension 8 always has. */
  lemma SearchOverruns(c: Book)
    requires c.Centred()
    ensures (exists i: nat :: i < c.entries && AtTop(c, Odometer(c, i))) <==> Power(c.quantvals, 8) <= c.entries
    ensures c.dim == 8 ==> Power(c.quantvals, 8) <= c.entries
  {
    hide Odometer, AtTop, Spells;
    if Power(c.quantvals, 8) <= c.entries {
      var last := Power(c.quantvals, 8) - 1;
      TopIsLast(c, Odometer(c, last), last);
    } else {
      forall i: nat | i < c.entries
        ensures !AtTop(c, Odometer(c, i))
      {
        TopIsLast(c, Odometer(c, i), i);
      }
    }
  }

  lemma Turned(c: Book, e: seq<int>, e': seq<int>, i: nat, j: nat)
    requires c.Centred() && Spells(c, e, i) && |e'| == 8 && j < 8
    requires (forall k :: 0 <= k < j ==> Digit(i, c.quantvals, k) == c.quantvals - 1 && e'[k] == 0)
    requires e[j] < c.minval + c.del * (c.quantvals - 1) && e'[j] == if e[j] >= 0 then -(e[j] + c.del) else -e[j]
    requires forall k :: j < k < 8 ==> e'[k] == e[k]
    ensures Spells(c, e', i + 1)
  {
    hide Book.Centred;
    var d := Digit(i, c.quantvals, j);
    OddCount(c);
    TopIsFull(c, d);
    TurnOver(c, d);
    NextDigits(i, i + 1, c.quantvals, j);
    hide Digit;
    forall k | 0 <= k < 8
      ensures e'[k] == ZigZag(Digit(i + 1, c.quantvals, k)) * c.del
    {
      if k < j {
        assert ZigZag(0) * c.del == 0;
      }
    }
  }

  lemma OddCount(c: Book)
    requires c.Centred()
    ensures c.quantvals == 2 * c.Middle() + 1 && c.del >= 1 && |c.quantlist| == c.quantvals
  {
  }

  /** One step of the odometer. */
  method Turn(c: Book, e: array<int>, ghost i: nat)
    requires c.Centred() && e.Length == 8 && Spells(c, e[..], i) && i + 1 < Power(c.quantvals, 8)
    modifies e
    ensures Spells(c, e[..], i + 1)
  {
    hide Book.Centred, Power, ZigZag, Digit;
    ghost var was := e[..];
    var maxval := c.minval + c.del * (c.quantvals - 1);
    var j := 0;
    while e[j] >= maxval
      invariant 0 <= j < 8
      invariant forall k :: 0 <= k < j ==> was[k] >= maxval && e[k] == 0
      invariant forall k :: j <= k < 8 ==> e[k] == was[k]
      decreases 8 - j
    {
      e[j] := 0;
      j := j + 1;
      RoomLeft(c, was, i, j);
    }
    RoomLeft(c, was, i, j);
    if e[j] >= 0 {
      e[j] := e[j] + c.del;
    }
    e[j] := -e[j];
    Turned(c, was, e[..], i, j);
  }

  // ---------------------------------------------------------------------------------------------
  // Distance
  // ---------------------------------------------------------------------------------------------

  function Square(x: int): (r: nat)
  {
    if x < 0 then (-x) * (-x) else x * x
  }

  /** Squared distance over the first `n` components. */
  function Distance(a: seq<int>, p: seq<int>, n: nat): nat
    requires n <= |a| && n <= |p|
  {
    if n == 0 then 0 else Distance(a, p, n - 1) + Square(p[n - 1] - a[n - 1])
  }

  function From(c: Book, a: seq<int>, i: nat): nat
    requires c.Centred() && |a| == c.dim
  {
    Distance(a, c.Vector(i), c.dim)
  }

  predicate Used(c: Book, i: int)
  {
    0 <= i < |c.lengthlist| && c.lengthlist[i] > 0
  }

  /** `best` is the first of the used entries below `n` that are nearest to `a`; -1 when there is none. */
  ghost predicate NearestBelow(c: Book, a: seq<int>, n: nat, best: int)
    requires c.Centred() && |a| == c.dim
  {
    if best < 0 then forall i :: 0 <= i < n ==> !Used(c, i)
    else
      && best < n && Used(c, best)
      && (forall i: nat :: i < n && Used(c, i) ==> From(c, a, best) <= From(c, a, i))
      && (forall i: nat :: i < best && Used(c, i) ==> From(c, a, best) < From(c, a, i))
  }

  lemma NearestStep(c: Book, a: seq<int>, n: nat, best: int)
    requires c.Centred() && |a| == c.dim && NearestBelow(c, a, n, best)
    ensures NearestBelow(c, a, n + 1, Nearer(c, a, n, best))
  {
    hide From, Book.Centred;
  }

  /** Entry `n` if it is used and nearer than `best`. */
  ghost function Nearer(c: Book, a: seq<int>, n: nat, best: int): int
    requires c.Centred() && |a| == c.dim
  {
    if Used(c, n) && (best < 0 || From(c, a, n) < From(c, a, best)) then n else best
  }

  ghost function NearestEntry(c: Book, a: seq<int>, n: nat): (best: int)
    requires c.Centred() && |a| == c.dim
    ensures best < n
  {
    if n == 0 then -1 else Nearer(c, a, n - 1, NearestEntry(c, a, n - 1))
  }

  lemma {:induction false} NearestIsNearest(c: Book, a: seq<int>, n: nat)
    requires c.Centred() && |a| == c.dim
    ensures NearestBelow(c, a, n, NearestEntry(c, a, n))
  {
    hide From, Book.Centred;
    if n > 0 {
      NearestIsNearest(c, a, n - 1);
      NearestStep(c, a, n - 1, NearestEntry(c, a, n - 1));
    }
  }

  /** The exhaustive search: walk the grid with the odometer, remember the nearest used entry. */
  method SearchAll(c: Book, a: seq<int>) returns (index: int, p: seq<int>)
    requires c.Centred() && |a| == c.dim && c.entries < Power(c.quantvals, 8)
    ensures index == NearestEntry(c, a, c.entries) && index >= -1
    ensures index >= 0 ==> p == c.Vector(index)
  {
    hide Power, Digit, ZigZag, Book.Value, Spells;
    var e := new int[8](i => 0);
    StartSpells(c, e[..]);
    index := -1;
    p := [];
    var best := -1;
    var i := 0;
    while i < c.entries
      invariant 0 <= i <= c.entries && e.Length == 8 && Spells(c, e[..], i)
      invariant index == NearestEntry(c, a, i) && (best == -1 <==> index == -1) && index >= -1
      invariant index >= 0 ==> p == c.Vector(index) && best == From(c, a, index)
    {
      SpellsVector(c, e[..], i);
      if c.lengthlist[i] > 0 {
        var this_ := 0;
        for j := 0 to c.dim
          invariant this_ == Distance(a, c.Vector(i), j)
        {
          var val := e[j] - a[j];
          assert e[j] == c.Vector(i)[j];
          this_ := this_ + Square(val);
        }
        if best == -1 || this_ < best {
          p := e[..c.dim];
          best := this_;
          index := i;
        }
      }
      Turn(c, e, i);
      i := i + 1;
    }
  }

  lemma {:induction false} ZeroDigits(q: nat, k: nat)
    requires q > 0
    ensures Digit(0, q, k) == 0
  {
    if k > 0 {
      ZeroDigits(q, k - 1);
    }
  }

  lemma StartSpells(c: Book, e: seq<int>)
    requires c.Centred() && |e| == 8 && forall k :: 0 <= k < 8 ==> e[k] == 0
    ensures Spells(c, e, 0)
  {
    forall k | 0 <= k < 8
      ensures e[k] == ZigZag(Digit(0, c.quantvals, k)) * c.del
    {
      ZeroDigits(c.quantvals, k);
    }
  }

  // ---------------------------------------------------------------------------------------------
  // The direct index
  // ---------------------------------------------------------------------------------------------

  /** The step of the grid that `x` is rounded to; it may lie beyond the grid. */
  function Step(c: Book, x: int): int
    requires c.del > 0
  {
    Quot(x - c.minval + c.del / 2, c.del)
  }

  predicate InRange(c: Book, x: int)
    requires c.del > 0
  {
    0 <= Step(c, x) < c.quantvals
  }

  /** The digit for that step, held to the digits there are. */
  function Code(c: Book, x: int): (m: nat)
    requires c.del > 0 && c.quantvals > 0
    ensures m < c.quantvals
  {
    var v, ze := Step(c, x), c.quantvals / 2;
    var m := if v < ze then 2 * (ze - v) - 1 else 2 * (v - ze);
    if m >= c.quantvals then c.quantvals - 1 else m
  }

  /** The entry whose digits are the components' codes, from component `o` up. */
  function DirectEntry(c: Book, a: seq<int>, o: nat): nat
    requires c.del > 0 && c.quantvals > 0 && o <= c.dim == |a|
    decreases c.dim - o
  {
    if o == c.dim then 0 else Push(DirectEntry(c, a, o + 1), c.quantvals, Code(c, a[o]))
  }

  /** A further digit, the lowest. */
  function Push(i: nat, q: nat, m: nat): nat
  {
    i * q + m
  }

  /** What the direct path subtracts. */
  function Rounded(c: Book, a: seq<int>): (p: seq<int>)
    requires c.del > 0
    ensures |p| == |a|
  {
    seq(|a|, k requires 0 <= k < |a| => Step(c, a[k]) * c.del + c.minval)
  }

  lemma PushDigit(i: nat, q: nat, m: nat)
    requires m < q
    ensures Rest(i * q + m, q) == i && Low(i * q + m, q) == m
  {
    DivModUnique(i * q + m, i, q, m);
  }

  lemma {:induction false} DirectDigits(c: Book, a: seq<int>, o: nat, k: nat)
    requires c.del > 0 && c.quantvals > 0 && o + k < c.dim == |a|
    ensures Digit(DirectEntry(c, a, o), c.quantvals, k) == Code(c, a[o + k])
    decreases k
  {
    hide Rest, Low, Code;
    PushDigit(DirectEntry(c, a, o + 1), c.quantvals, Code(c, a[o]));
    if k > 0 {
      DirectDigits(c, a, o + 1, k - 1);
    }
  }

  lemma {:induction false} DirectBound(c: Book, a: seq<int>, o: nat)
    requires c.del > 0 && c.quantvals > 0 && o <= c.dim == |a|
    ensures DirectEntry(c, a, o) < Power(c.quantvals, c.dim - o)
    decreases c.dim - o
  {
    hide Code;
    if o < c.dim {
      DirectBound(c, a, o + 1);
      MulStep(DirectEntry(c, a, o + 1), Power(c.quantvals, c.dim - o - 1), c.quantvals);
    }
  }

  /** A component in range is coded as the step it is rounded to; one out of range never is. */
  lemma CodeIsStep(c: Book, x: int)
    requires c.Centred()
    ensures InRange(c, x) <==> c.Middle() + ZigZag(Code(c, x)) == Step(c, x)
  {
    hide Step, Power;
    OddCount(c);
  }

  /** What is subtracted is the entry's own value, component by component, exactly where in range. */
  lemma DirectValue(c: Book, a: seq<int>, k: nat)
    requires c.Centred() && |a| == c.dim && k < c.dim
    ensures c.Value(DirectEntry(c, a, 0), k) == Rounded(c, a)[k] <==> InRange(c, a[k])
  {
    hide Step, Power, Digit, Code, InRange;
    DirectDigits(c, a, 0, k);
    ValueIsZigZag(c, DirectEntry(c, a, 0), k);
    CodeIsStep(c, a[k]);
    var z, v := ZigZag(Code(c, a[k])), Step(c, a[k]);
    FromMiddle(c.Middle(), v - c.Middle(), c.del);
    if z * c.del == (v - c.Middle()) * c.del {
      SameFactor(z, v - c.Middle(), c.del);
    }
  }

  lemma SameFactor(x: int, y: int, d: int)
    requires d > 0 && x * d == y * d
    ensures x == y
  {
    if x < y {
      MulStep(x, y, d);
    } else if y < x {
      MulStep(y, x, d);
    }
  }

  /** The direct path takes off exactly what the decoder will put back, if and only if every component
      is within half a step of the grid. */
  lemma DirectExact(c: Book, a: seq<int>)
    requires c.Centred() && |a| == c.dim
    ensures Rounded(c, a) == c.Vector(DirectEntry(c, a, 0)) <==> forall k :: 0 <= k < c.dim ==> InRange(c, a[k])
  {
    hide Step, Power, Digit, Code, InRange, DirectEntry, Book.Centred, Book.Value;
    OddCount(c);
    forall k | 0 <= k < c.dim
      ensures c.Vector(DirectEntry(c, a, 0))[k] == Rounded(c, a)[k] <==> InRange(c, a[k])
    {
      DirectValue(c, a, k);
    }
    var p, q := Rounded(c, a), c.Vector(DirectEntry(c, a, 0));
    if p != q {
      assert exists k :: 0 <= k < c.dim && p[k] != q[k];
    }
  }

  // ---------------------------------------------------------------------------------------------
  // The direct index is nearest
  // ---------------------------------------------------------------------------------------------

  /** Rounding leaves at most half a step, except below the grid, where it stops at the bottom. */
  lemma StepNear(c: Book, x: int)
    requires c.del > 0 && InRange(c, x)
    ensures var r := x - (Step(c, x) * c.del + c.minval); -c.del <= 2 * r <= c.del || (Step(c, x) == 0 && r < 0)
  {
    DivMod(if x - c.minval + c.del / 2 < 0 then -(x - c.minval + c.del / 2) else x - c.minval + c.del / 2, c.del);
  }

  /** Any other step of the grid is at least as far off. */
  lemma OtherStepFurther(c: Book, x: int, v: int, w: nat)
    requires c.del > 0
    requires var r := x - (v * c.del + c.minval); -c.del <= 2 * r <= c.del || (v == 0 && r < 0)
    ensures Square(v * c.del + c.minval - x) <= Square(w * c.del + c.minval - x)
  {
    hide Square;
    var p, q := v * c.del + c.minval - x, w * c.del + c.minval - x;
    if w > v {
      MulStep(v, w, c.del);
    } else if w < v {
      MulStep(w, v, c.del);
    }
    SquareOrder(p, q);
  }

  lemma SquareOrder(p: int, q: int)
    requires (if p < 0 then -p else p) <= (if q < 0 then -q else q)
    ensures Square(p) <= Square(q)
  {
    var x, y := if p < 0 then -p else p, if q < 0 then -q else q;
    MulMonotone(x, y, x);
    MulMonotone(x, y, y);
  }

  lemma {:induction false} DistanceOrder(a: seq<int>, p: seq<int>, q: seq<int>, n: nat)
    requires n <= |a| && n <= |p| && n <= |q|
    requires forall k :: 0 <= k < n ==> Square(p[k] - a[k]) <= Square(q[k] - a[k])
    ensures Distance(a, p, n) <= Distance(a, q, n)
  {
    hide Square;
    if n > 0 {
      DistanceOrder(a, p, q, n - 1);
    }
  }

  /** For components in range, no point of the whole grid is nearer than the direct entry. */
  lemma DirectNearest(c: Book, a: seq<int>, i: nat)
    requires c.Centred() && |a| == c.dim
    requires forall k :: 0 <= k < c.dim ==> InRange(c, a[k])
    ensures From(c, a, DirectEntry(c, a, 0)) <= From(c, a, i)
  {
    hide Step, Power, Digit, Code, InRange, DirectEntry, Square, Book.Centred, ZigZag;
    OddCount(c);
    DirectExact(c, a);
    var p, q := Rounded(c, a), c.Vector(i);
    forall k | 0 <= k < c.dim
      ensures Square(p[k] - a[k]) <= Square(q[k] - a[k])
    {
      StepNear(c, a[k]);
      OtherStepFurther(c, a[k], Step(c, a[k]), c.quantlist[Digit(i, c.quantvals, k)]);
    }
    DistanceOrder(a, p, q, c.dim);
  }

  // ---------------------------------------------------------------------------------------------
  // The search
  // ---------------------------------------------------------------------------------------------

  /** The entry chosen: the direct one if it has a codeword, otherwise the nearest that has. */
  ghost function Best(c: Book, a: seq<int>): int
    requires c.Centred() && |a| == c.dim
  {
    var direct := DirectEntry(c, a, 0);
    if Used(c, direct) || NearestEntry(c, a, c.entries) < 0 then direct else NearestEntry(c, a, c.entries)
  }

  /** What is taken off the vector. */
  ghost function Taken(c: Book, a: seq<int>): (p: seq<int>)
    requires c.Centred() && |a| == c.dim
    ensures |p| == c.dim
  {
    var direct := DirectEntry(c, a, 0);
    if Used(c, direct) || NearestEntry(c, a, c.entries) < 0 then Rounded(c, a)
    else c.Vector(NearestEntry(c, a, c.entries))
  }

  ghost predicate AllInRange(c: Book, a: seq<int>)
    requires c.Centred() && |a| == c.dim
  {
    forall k :: 0 <= k < c.dim ==> InRange(c, a[k])
  }

  /** Encoder and decoder agree on the vector of the chosen entry, exactly when the direct path was not
      taken or every component was in range. */
  lemma TakenIsVector(c: Book, a: seq<int>)
    requires c.Centred() && |a| == c.dim && exists i :: Used(c, i)
    ensures 0 <= Best(c, a) < c.entries && Used(c, Best(c, a))
    ensures Taken(c, a) == c.Vector(Best(c, a)) <==> (Used(c, DirectEntry(c, a, 0)) ==> AllInRange(c, a))
  {
    hide DirectEntry, Rounded, InRange, Power;
    DirectExact(c, a);
    NearestIsNearest(c, a, c.entries);
  }

  /** The chosen entry is no further off than any other that has a codeword. */
  lemma BestIsNearest(c: Book, a: seq<int>, i: nat)
    requires c.Centred() && |a| == c.dim && Used(c, i) && AllInRange(c, a)
    ensures 0 <= Best(c, a) && From(c, a, Best(c, a)) <= From(c, a, i)
  {
    hide DirectEntry, InRange, Power, From;
    NearestIsNearest(c, a, c.entries);
    DirectNearest(c, a, i);
  }

  /** `x` less `p`, component by component. */
  function Minus(x: seq<int>, p: seq<int>): (r: seq<int>)
    requires |x| == |p|
    ensures |r| == |x|
  {
    seq(|x|, k requires 0 <= k < |x| => x[k] - p[k])
  }

  /** Every point of the grid has a codeword. */
  ghost predicate Full(c: Book)
  {
    forall i: nat :: i < Power(c.quantvals, c.dim) ==> Used(c, i)
  }

  /** The search is never needed, or it stays within the eight components. */
  ghost predicate Searchable(c: Book)
  {
    c.entries < Power(c.quantvals, 8) || Full(c)
  }

  lemma NoSearchIfFull(c: Book, v: seq<int>)
    requires c.Centred() && Searchable(c) && |v| == c.dim
    ensures c.entries < Power(c.quantvals, 8) || Used(c, DirectEntry(c, v, 0))
  {
    hide DirectEntry;
    DirectBound(c, v, 0);
  }

  /** The entry for `v`, and what to take off. */
  method Choose(c: Book, v: seq<int>) returns (index: int, p: seq<int>)
    requires c.Centred() && |v| == c.dim
    requires c.entries < Power(c.quantvals, 8) || Used(c, DirectEntry(c, v, 0))
    ensures index == Best(c, v) && 0 <= index < c.entries && p == Taken(c, v)
  {
    hide Power, Rounded, DirectEntry, NearestEntry, Book.Value;
    OddCount(c);
    index, p := DirectIndex(c, v);
    EntryExists(c, v);
    if c.lengthlist[index] <= 0 {
      var best, e := SearchAll(c, v);
      if best != -1 {
        index, p := best, e;
      }
    }
  }

  /** Choose an entry for the vector at `at`, and leave what the entry does not account for. */
  method BestError(c: Book, a: array<int>, at: nat) returns (index: int)
    requires c.Centred() && at + c.dim <= a.Length
    requires c.entries < Power(c.quantvals, 8) || Used(c, DirectEntry(c, a[at..at + c.dim], 0))
    modifies a
    ensures index == Best(c, old(a[at..at + c.dim])) && 0 <= index < c.entries
    ensures a[..]
        == old(a[..at]) + Minus(old(a[at..at + c.dim]), Taken(c, old(a[at..at + c.dim]))) + old(a[at + c.dim..])
  {
    hide Power, Book.Centred, Best, Taken, DirectEntry;
    ghost var was := a[..];
    var p;
    index, p := Choose(c, a[at..at + c.dim]);
    TakeOff(a, at, p);
    TakenOff(was, a[..], at, p);
  }

  /** Subtract `p` from the components at `at`. */
  method TakeOff(a: array<int>, at: nat, p: seq<int>)
    requires at + |p| <= a.Length
    modifies a
    ensures forall k :: 0 <= k < a.Length ==> a[k] == old(a[k]) - if at <= k < at + |p| then p[k - at] else 0
  {
    var i := 0;
    while i < |p|
      invariant 0 <= i <= |p|
      invariant forall k :: 0 <= k < a.Length ==> a[k] == old(a[k]) - if at <= k < at + i then p[k - at] else 0
    {
      a[at + i] := a[at + i] - p[i];
      i := i + 1;
    }
  }

  lemma TakenOff(was: seq<int>, now: seq<int>, at: nat, p: seq<int>)
    requires |now| == |was| && at + |p| <= |was|
    requires forall k :: 0 <= k < |was| ==> now[k] == was[k] - if at <= k < at + |p| then p[k - at] else 0
    ensures now == was[..at] + Minus(was[at..at + |p|], p) + was[at + |p|..]
  {
  }

  lemma EntryExists(c: Book, a: seq<int>)
    requires c.Centred() && |a| == c.dim
    ensures DirectEntry(c, a, 0) < c.entries == |c.lengthlist|
  {
    hide DirectEntry;
    DirectBound(c, a, 0);
  }

  /** A step of 1 needs no division. */
  lemma StepIs(c: Book, x: int)
    requires c.del > 0
    ensures Step(c, x) == if c.del != 1 then Quot(x - c.minval + c.del / 2, c.del) else x - c.minval
  {
  }

  lemma CodeIs(c: Book, x: int)
    requires c.del > 0 && c.quantvals > 0
    ensures var v, ze := Step(c, x), c.quantvals / 2;
      var m := if v < ze then 2 * (ze - v) - 1 else 2 * (v - ze);
      Code(c, x) == if m < 0 then 0 else if m >= c.quantvals then c.quantvals - 1 else m
  {
    hide Step;
  }

  /** What component `o` adds to both. */
  lemma DirectNext(c: Book, a: seq<int>, o: nat)
    requires c.del > 0 && c.quantvals > 0 && o < c.dim == |a|
    ensures DirectEntry(c, a, o) == DirectEntry(c, a, o + 1) * c.quantvals + Code(c, a[o])
    ensures Rounded(c, a)[o..] == [Step(c, a[o]) * c.del + c.minval] + Rounded(c, a)[o + 1..]
  {
    hide Step, Code;
  }

  lemma DirectEnd(c: Book, a: seq<int>)
    requires c.del > 0 && c.quantvals > 0 && c.dim == |a|
    ensures DirectEntry(c, a, c.dim) == 0 && Rounded(c, a)[c.dim..] == []
  {
  }

  /** Index and rounded vector, from the last component to the first. */
  method DirectIndex(c: Book, a: seq<int>) returns (index: int, p: seq<int>)
    requires c.del > 0 && c.quantvals > 0 && |a| == c.dim
    ensures index == DirectEntry(c, a, 0) && p == Rounded(c, a)
  {
    hide Step, Code, DirectEntry, Rounded, Quot;
    index := 0;
    p := [];
    var ze := c.quantvals / 2;
    var o := c.dim;
    DirectEnd(c, a);
    while o > 0
      invariant 0 <= o <= c.dim && index == DirectEntry(c, a, o) && p == Rounded(c, a)[o..]
    {
      o := o - 1;
      DirectNext(c, a, o);
      StepIs(c, a[o]);
      CodeIs(c, a[o]);
      var v;
      if c.del != 1 {
        v := Quot(a[o] - c.minval + c.del / 2, c.del);
      } else {
        v := a[o] - c.minval;
      }
      var m := if v < ze then 2 * (ze - v) - 1 else 2 * (v - ze);
      index := index * c.quantvals + if m < 0 then 0 else if m >= c.quantvals then c.quantvals - 1 else m;
      p := [v * c.del + c.minval] + p;
    }
  }
}
