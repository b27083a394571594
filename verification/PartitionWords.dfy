/** Partition words: the classes of several partitions as one number, first partition highest. */
module PartitionWords {
  import opened BitMath
  import opened Lattice

  function Horner(p: nat, ds: seq<nat>): nat
  {
    if ds == [] then 0 else Horner(p, ds[..|ds| - 1]) * p + ds[|ds| - 1]
  }

  ghost predicate DigitsBelow(p: nat, ds: seq<nat>)
  {
    forall k :: 0 <= k < |ds| ==> ds[k] < p
  }

  lemma {:induction false} HornerBound(p: nat, ds: seq<nat>)
    requires DigitsBelow(p, ds)
    ensures Horner(p, ds) < Power(p, |ds|)
  {
    if ds != [] {
      HornerBound(p, ds[..|ds| - 1]);
      MulStep(Horner(p, ds[..|ds| - 1]), Power(p, |ds| - 1), p);
    }
  }

  /** Different digits give different words. */
  lemma {:induction false} HornerUnique(p: nat, a: seq<nat>, b: seq<nat>)
    requires DigitsBelow(p, a) && DigitsBelow(p, b) && |a| == |b| && Horner(p, a) == Horner(p, b)
    ensures a == b
  {
    if a != [] {
      var n := |a| - 1;
      DivModUnique(Horner(p, a), Horner(p, a[..n]), p, a[n]);
      DivModUnique(Horner(p, b), Horner(p, b[..n]), p, b[n]);
      HornerUnique(p, a[..n], b[..n]);
      assert a == a[..n] + [a[n]] && b == b[..n] + [b[n]];
    }
  }

  /** Digit `k`, highest first, of a word of `dim` digits. */
  function DigitAt(p: nat, dim: nat, word: nat, k: nat): (d: nat)
    requires p > 0 && k < dim
    ensures d < p
  {
    word / Power(p, dim - 1 - k) % p
  }

  /** All but the last digit of a word are the digits of its quotient. */
  lemma DigitBelow(p: nat, dim: nat, word: nat, k: nat)
    requires p > 0 && k < dim
    ensures DigitAt(p, dim + 1, word, k) == DigitAt(p, dim, word / p, k)
    ensures DigitAt(p, dim + 1, word, dim) == word % p
  {
    DivDiv(word, p, Power(p, dim - 1 - k));
    assert Power(p, dim - k) == p * Power(p, dim - 1 - k);
  }

  lemma LowDigit(p: nat, dim: nat, word: nat)
    requires p > 0 && dim > 0
    ensures DigitAt(p, dim, word, dim - 1) == word % p
  {
  }

  /** The digits that make up a word are its digits. */
  lemma {:induction false} HornerDigit(p: nat, ds: seq<nat>, k: nat)
    requires p > 0 && DigitsBelow(p, ds) && k < |ds|
    ensures DigitAt(p, |ds|, Horner(p, ds), k) == ds[k]
  {
    hide DigitAt;
    var n := |ds| - 1;
    var front := ds[..n];
    DivModUnique(Horner(p, ds), Horner(p, front), p, ds[n]);
    if k < n {
      DigitBelow(p, n, Horner(p, ds), k);
      HornerDigit(p, front, k);
    } else {
      LowDigit(p, n + 1, Horner(p, ds));
    }
  }

  function Digits(p: nat, dim: nat, word: nat): (ds: seq<nat>)
    requires p > 0
    ensures |ds| == dim && DigitsBelow(p, ds) && forall k :: 0 <= k < dim ==> ds[k] == DigitAt(p, dim, word, k)
  {
    seq(dim, k requires 0 <= k < dim => DigitAt(p, dim, word, k))
  }

  /** And its digits make it up. */
  lemma {:induction false} WordOfDigits(p: nat, dim: nat, word: nat)
    requires p > 0 && word < Power(p, dim)
    ensures Horner(p, Digits(p, dim, word)) == word
  {
    hide Digits;
    if dim > 0 {
      DigitsFront(p, dim - 1, word);
      DivMod(word, p);
      QuotientBelow(p, dim - 1, word);
      WordOfDigits(p, dim - 1, word / p);
    }
  }

  /** The digits of the quotient, and then the remainder. */
  lemma DigitsFront(p: nat, n: nat, word: nat)
    requires p > 0
    ensures Digits(p, n + 1, word)[..n] == Digits(p, n, word / p) && Digits(p, n + 1, word)[n] == word % p
  {
    hide DigitAt;
    LowDigit(p, n + 1, word);
    forall k | 0 <= k < n
      ensures Digits(p, n + 1, word)[..n][k] == Digits(p, n, word / p)[k]
    {
      DigitBelow(p, n, word, k);
    }
  }

  lemma QuotientBelow(p: nat, n: nat, word: nat)
    requires p > 0 && word < Power(p, n + 1)
    ensures word / p < Power(p, n)
  {
    DivMod(word, p);
    if word / p >= Power(p, n) {
      MulMonotone(Power(p, n), word / p, p);
    }
  }

  /** `map` lists the digits of every word. */
  ghost predicate Decodes(map_: seq<seq<nat>>, p: nat, dim: nat)
  {
    && |map_| == Power(p, dim) && (forall j :: 0 <= j < |map_| ==> |map_[j]| == dim)
    && forall ds :: DigitsBelow(p, ds) && |ds| == dim ==> Horner(p, ds) < |map_| && map_[Horner(p, ds)] == ds
  }

  /** `map` lists digits that make up each of its first `n` indices. */
  ghost predicate Listed(map_: seq<seq<nat>>, p: nat, dim: nat)
  {
    forall j :: 0 <= j < |map_| ==> |map_[j]| == dim && DigitsBelow(p, map_[j]) && Horner(p, map_[j]) == j
  }

  lemma ListedDecodes(map_: seq<seq<nat>>, p: nat, dim: nat)
    requires Listed(map_, p, dim) && |map_| == Power(p, dim)
    ensures Decodes(map_, p, dim)
  {
    hide Power;
    forall ds | DigitsBelow(p, ds) && |ds| == dim
      ensures Horner(p, ds) < |map_| && map_[Horner(p, ds)] == ds
    {
      HornerBound(p, ds);
      var j := Horner(p, ds);
      HornerUnique(p, map_[j], ds);
    }
  }

  /** Looking a word up gives its digits, first partition highest. */
  lemma MapDigits(map_: seq<seq<nat>>, p: nat, dim: nat, word: nat)
    requires p > 0 && Decodes(map_, p, dim) && word < |map_|
    ensures |map_[word]| == dim && forall k :: 0 <= k < dim ==> map_[word][k] == DigitAt(p, dim, word, k)
  {
    hide DigitAt;
    WordOfDigits(p, dim, word);
    assert map_[Horner(p, Digits(p, dim, word))] == Digits(p, dim, word);
  }

  /** With the digits `ds` split off, `val` is left of `j` for `left` more. */
  ghost predicate Splits(p: nat, ds: seq<nat>, left: nat, val: nat, j: nat)
  {
    DigitsBelow(p, ds) && Horner(p, ds) * Power(p, left) + val == j && val < Power(p, left)
  }

  lemma SplitStep(p: nat, ds: seq<nat>, left: nat, val: nat, j: nat, mult: nat)
    requires p > 0 && left > 0 && mult == Power(p, left - 1) && Splits(p, ds, left, val, j)
    ensures mult > 0 && 0 <= val / mult && 0 <= val - val / mult * mult
    ensures Splits(p, ds + [val / mult], left - 1, val - val / mult * mult, j)
  {
    hide Power, DigitsBelow, Horner;
    NextDigit(val, mult, p, left);
    var deco: nat := val / mult;
    HornerPush(p, ds, deco);
    Gather(Horner(p, ds), p, mult, deco, val - deco * mult, left);
  }

  lemma SplitEnds(p: nat, ds: seq<nat>, val: nat, j: nat)
    ensures j < Power(p, |ds|) ==> Splits(p, [], |ds|, j, j)
    ensures Splits(p, ds, 0, val, j) ==> DigitsBelow(p, ds) && Horner(p, ds) == j
  {
  }

  /** Split `j` into digits, highest first. */
  method SplitWord(j: nat, p: nat, dim: nat, partvals: nat) returns (ds: seq<nat>)
    requires p > 0 && dim > 0 && partvals == Power(p, dim) && j < partvals
    ensures |ds| == dim && DigitsBelow(p, ds) && Horner(p, ds) == j
  {
    hide Power, DigitsBelow, Horner, Splits;
    ds := [];
    var val: nat := j;
    LastPower(p, dim);
    SplitEnds(p, seq(dim, k => 0), val, j);
    var mult: nat := partvals / p;
    var k := 0;
    while k < dim
      invariant 0 <= k <= dim && |ds| == k && Splits(p, ds, dim - k, val, j)
      invariant k < dim ==> mult == Power(p, dim - k - 1)
    {
      SplitStep(p, ds, dim - k, val, j, mult);
      var deco: nat := val / mult;
      val := val - deco * mult;
      if k + 1 < dim {
        LastPower(p, dim - k - 1);
      }
      mult := mult / p;
      ds := ds + [deco];
      k := k + 1;
    }
    SplitEnds(p, ds, val, j);
  }

  lemma LastPower(p: nat, n: nat)
    requires p > 0 && n > 0
    ensures Power(p, n) / p == Power(p, n - 1) && Power(p, n) == p * Power(p, n - 1)
  {
    var r := Power(p, n - 1);
    DivModUnique(p * r, r, p, 0);
  }

  lemma NextDigit(val: nat, mult: nat, p: nat, n: nat)
    requires p > 0 && n > 0 && mult == Power(p, n - 1) && val < Power(p, n)
    ensures mult > 0 && 0 <= val / mult < p && 0 <= val - val / mult * mult < mult
  {
    DivMod(val, mult);
    LastPower(p, n);
    var d := val / mult;
    if d >= p {
      MulMonotone(p, d, mult);
    }
  }

  lemma HornerPush(p: nat, ds: seq<nat>, d: nat)
    ensures Horner(p, ds + [d]) == Horner(p, ds) * p + d
    ensures DigitsBelow(p, ds) && d < p ==> DigitsBelow(p, ds + [d])
  {
    assert (ds + [d])[..|ds|] == ds;
  }

  lemma Gather(h: nat, p: nat, mult: nat, deco: nat, rest: nat, n: nat)
    requires n > 0 && mult == Power(p, n - 1) && p > 0
    ensures (h * p + deco) * Power(p, n - 1) + rest == h * Power(p, n) + (deco * mult + rest)
  {
    LastPower(p, n);
    hide Power;
    MulAssoc(h, p, mult);
    assert (h * p + deco) * mult == h * p * mult + deco * mult;
  }

  method BuildDecodemap(parts: nat, dim: nat) returns (partvals: nat, map_: seq<seq<nat>>)
    requires parts > 0 && dim > 0
    ensures partvals == Power(parts, dim) && Decodes(map_, parts, dim)
  {
    hide Horner, DigitsBelow;
    partvals := 1;
    var j := 0;
    while j < dim
      invariant 0 <= j <= dim && partvals == Power(parts, j)
    {
      assert Power(parts, j + 1) == parts * Power(parts, j);
      partvals := partvals * parts;
      j := j + 1;
    }
    map_ := [];
    while |map_| < partvals
      invariant |map_| <= partvals && Listed(map_, parts, dim)
    {
      var ds := SplitWord(|map_|, parts, dim, partvals);
      map_ := map_ + [ds];
    }
    ListedDecodes(map_, parts, dim);
  }
}
