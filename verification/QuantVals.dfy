/** How many values a lattice book of given size and dimension lists. */
module QuantVals {
  import opened BitMath
  import opened Lattice

  /** `v` is the greatest number whose `dim`-th power is at most `entries`. */
  ghost predicate IsRoot(entries: nat, dim: nat, v: nat)
  {
    Power(v, dim) <= entries < Power(v + 1, dim)
  }

  lemma {:induction false} PowerMonotone(a: nat, b: nat, n: nat)
    requires a <= b
    ensures Power(a, n) <= Power(b, n)
    decreases n
  {
    if n > 0 {
      PowerMonotone(a, b, n - 1);
      MulMonotone(Power(a, n - 1), Power(b, n - 1), a);
      MulMonotone(a, b, Power(b, n - 1));
      assert Power(b, n - 1) * a == a * Power(b, n - 1);
      assert Power(a, n - 1) * a == a * Power(a, n - 1);
    }
  }

  lemma {:induction false} PowerAtLeast(a: nat, n: nat)
    requires n >= 1
    ensures Power(a, n) >= a
    decreases n
  {
    if n > 1 {
      PowerAtLeast(a, n - 1);
      if a > 0 {
        MulMonotone(1, Power(a, n - 1), a);
        assert Power(a, n - 1) * a == a * Power(a, n - 1);
      }
    }
  }

  lemma RootUnique(entries: nat, dim: nat, v: nat, w: nat)
    requires IsRoot(entries, dim, v) && IsRoot(entries, dim, w)
    ensures v == w
  {
    if v < w {
      PowerMonotone(v + 1, w, dim);
    } else if w < v {
      PowerMonotone(w + 1, v, dim);
    }
  }

  lemma PowerOfZero(dim: nat)
    requires dim >= 1
    ensures Power(0, dim) == 0
  {
  }

  ghost function RootBelow(entries: nat, dim: nat, n: nat): (v: nat)
    requires Power(n, dim) > entries && dim >= 1
    ensures v < n && IsRoot(entries, dim, v)
    decreases n
  {
    PowerOfZero(dim);
    if Power(n - 1, dim) <= entries then n - 1 else RootBelow(entries, dim, n - 1)
  }

  ghost function Root(entries: nat, dim: nat): (v: nat)
    requires dim >= 1
    ensures IsRoot(entries, dim, v)
  {
    PowerAtLeast(entries + 1, dim);
    RootBelow(entries, dim, entries + 1)
  }

  /** In dimension 0 no number fits, and the search would not end. */
  lemma NoRootOfZero(entries: nat, v: nat)
    ensures !IsRoot(entries, 0, v)
  {
  }

  /** From any guess, step to the one number that fits: the search ends, wherever it starts. */
  method Maptype1Quantvals(entries: nat, dim: nat, guess: nat) returns (vals: nat)
    requires dim >= 1
    ensures IsRoot(entries, dim, vals) && vals == Root(entries, dim)
  {
    vals := guess;
    ghost var root := Root(entries, dim);
    while true
      decreases if vals > root then vals - root else root - vals
    {
      var acc, acc1 := 1, 1;
      for i := 0 to dim
        invariant acc == Power(vals, i) && acc1 == Power(vals + 1, i)
      {
        acc, acc1 := vals * acc, (vals + 1) * acc1;
      }
      if acc <= entries && acc1 > entries {
        RootUnique(entries, dim, vals, root);
        return;
      }
      if acc > entries {
        if vals <= root {
          PowerMonotone(vals, root, dim);
        }
        vals := vals - 1;
      } else {
        if root <= vals {
          PowerMonotone(root + 1, vals + 1, dim);
        }
        vals := vals + 1;
      }
    }
  }
}
