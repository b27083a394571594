/** Sorting pointers into an array, as libc's `qsort` does for this code. */
module PointerSort {
  /** `codep` lists the numbers below its length in some order, and `place` says where each one is. */
  ghost predicate Permutes(codep: seq<nat>, place: seq<nat>)
  {
    && |codep| == |place|
    && (forall i :: 0 <= i < |place| ==> place[i] < |codep| && codep[place[i]] == i)
    && (forall a :: 0 <= a < |codep| ==> codep[a] < |place| && place[codep[a]] == a)
  }

  ghost predicate InOrder(codes: seq<nat>, codep: seq<nat>, n: nat)
  {
    && n <= |codep| && (forall a :: 0 <= a < |codep| ==> codep[a] < |codes|)
    && forall a, b :: 0 <= a < b < n ==> codes[codep[a]] <= codes[codep[b]]
  }

  /** In order up to and including `k`, except that the pointer at `j` may belong further left. */
  ghost predicate InOrderBut(codes: seq<nat>, codep: seq<nat>, j: nat, k: nat)
  {
    && j <= k < |codep| && (forall a :: 0 <= a < |codep| ==> codep[a] < |codes|)
    && forall a, b :: 0 <= a < b <= k && b != j ==> codes[codep[a]] <= codes[codep[b]]
  }

  ghost function Swapped(codep: seq<nat>, j: nat): seq<nat>
    requires 0 < j < |codep|
  {
    codep[j := codep[j - 1]][j - 1 := codep[j]]
  }

  /** Stands for libc's `qsort` on pointers into `codes`. */
  method SortPointers(codes: array<nat>) returns (codep: array<nat>, ghost place: seq<nat>)
    ensures fresh(codep) && codep.Length == codes.Length && Permutes(codep[..], place)
    ensures InOrder(codes[..], codep[..], codep.Length)
  {
    hide InOrder, InOrderBut, Permutes, Swapped;
    var n := codes.Length;
    codep := new nat[n](i => i);
    place := seq(n, i => i);
    ghost var cs := codes[..];
    SortStart(cs, codep[..], place);
    var k := 0;
    while k < n
      invariant 0 <= k <= n && fresh(codep) && codes[..] == cs
      invariant Permutes(codep[..], place) && InOrder(cs, codep[..], k)
    {
      place := InsertNext(codes, codep, place, k);
      k := k + 1;
    }
  }

  /** Move the pointer at `k` left past those that point at larger codes. */
  method InsertNext(codes: array<nat>, codep: array<nat>, ghost place0: seq<nat>, k: nat)
      returns (ghost place: seq<nat>)
    requires k < codep.Length == codes.Length && codes != codep
    requires Permutes(codep[..], place0) && InOrder(codes[..], codep[..], k)
    modifies codep
    ensures Permutes(codep[..], place) && InOrder(codes[..], codep[..], k + 1)
  {
    hide InOrder, InOrderBut, Permutes, Swapped;
    ghost var cs := codes[..];
    place := place0;
    SortShape(cs, codep[..], place, k);
    var j := k;
    while j > 0 && codes[codep[j - 1]] > codes[codep[j]]
      invariant 0 <= j <= k && Permutes(codep[..], place) && InOrderBut(cs, codep[..], j, k)
      invariant forall a :: 0 <= a < codep.Length ==> codep[a] < codes.Length
    {
      ghost var was := codep[..];
      place := SortSwap(cs, was, place, j, k);
      codep[j - 1], codep[j] := codep[j], codep[j - 1];
      SwapIs(was, codep[..], j);
      j := j - 1;
    }
    SortInserted(cs, codep[..], j, k);
  }

  lemma SortStart(codes: seq<nat>, codep: seq<nat>, place: seq<nat>)
    requires |codep| == |place| == |codes| && forall i :: 0 <= i < |codes| ==> codep[i] == i == place[i]
    ensures Permutes(codep, place) && InOrder(codes, codep, 0)
  {
  }

  lemma SortShape(codes: seq<nat>, codep: seq<nat>, place: seq<nat>, k: nat)
    requires Permutes(codep, place) && k < |codep| == |codes| && InOrder(codes, codep, k)
    ensures InOrderBut(codes, codep, k, k)
    ensures forall a :: 0 <= a < |codep| ==> codep[a] < |codes|
  {
  }

  lemma SwapIs(was: seq<nat>, now: seq<nat>, j: nat)
    requires 0 < j < |was| == |now| && now[j] == was[j - 1] && now[j - 1] == was[j]
    requires forall i :: 0 <= i < |was| && i != j && i != j - 1 ==> now[i] == was[i]
    ensures now == Swapped(was, j)
  {
  }

  lemma SortSwap(codes: seq<nat>, codep: seq<nat>, place: seq<nat>, j: nat, k: nat) returns (place': seq<nat>)
    requires Permutes(codep, place) && 0 < j <= k && InOrderBut(codes, codep, j, k) && |codep| == |codes|
    requires codes[codep[j - 1]] > codes[codep[j]]
    ensures Permutes(Swapped(codep, j), place') && InOrderBut(codes, Swapped(codep, j), j - 1, k)
    ensures forall a :: 0 <= a < |codep| ==> Swapped(codep, j)[a] < |codes|
  {
    place' := place[codep[j] := j - 1][codep[j - 1] := j];
  }

  lemma SortInserted(codes: seq<nat>, codep: seq<nat>, j: nat, k: nat)
    requires InOrderBut(codes, codep, j, k) && (j > 0 ==> codes[codep[j - 1]] <= codes[codep[j]])
    ensures InOrder(codes, codep, k + 1)
  {
    forall a, b | 0 <= a < b < k + 1
      ensures codes[codep[a]] <= codes[codep[b]]
    {
      if b == j && a < j - 1 {
        assert codes[codep[a]] <= codes[codep[j - 1]];
      }
    }
  }
}
