/** Packets made of numbers of fixed widths, as the setup header writes them. */
module Fields {
  import opened BitMath
  import opened BitBuffer

  datatype Field = Field(value: nat, width: nat)

  ghost function Row(fs: seq<Field>): seq<bool>
  {
    if fs == [] then [] else ToBits(fs[0].value, fs[0].width) + Row(fs[1..])
  }

  lemma RowFirst(value: nat, width: nat, rest: seq<Field>)
    ensures Row([Field(value, width)] + rest) == ToBits(value, width) + Row(rest)
  {
    assert ([Field(value, width)] + rest)[1..] == rest;
  }

  /** The packet goes on with the numbers `fs`, and then `more`. */
  ghost predicate Next(opb: OggPackBuffer, fs: seq<Field>, more: seq<bool>)
    requires opb.Valid()
    reads opb
  {
    opb.Rest() == Row(fs) + more
  }

  lemma NothingNext(opb: OggPackBuffer, more: seq<bool>)
    requires opb.Valid()
    ensures Next(opb, [], more) <==> opb.Rest() == more
  {
    assert [] + more == more;
  }

  /** The `width` bits of a packet from place `at` on are the number `v`, lowest first. */
  ghost predicate Stands(bits: seq<bool>, at: nat, width: nat, v: int)
  {
    at + width <= |bits| && v == FromBits(bits[at..at + width])
  }

  /** A place counted from further on in the packet. */
  lemma StandsAfter(bits: seq<bool>, n: nat, at: nat, width: nat, v: int)
    requires n <= |bits| && Stands(bits[n..], at, width, v)
    ensures Stands(bits, n + at, width, v)
  {
    assert bits[n..][at..at + width] == bits[n + at..n + at + width];
  }

  lemma RestAfter(bits: seq<bool>, n: nat, m: nat)
    requires n + m <= |bits|
    ensures bits[n..][m..] == bits[n + m..]
  {
  }

  /** The next number, as counted from the start. */
  lemma NextStands(bits: seq<bool>, at: nat, width: nat, v: int)
    requires at <= |bits| && Stands(bits[at..], 0, width, v)
    ensures Stands(bits, at, width, v) && at + width <= |bits| && bits[at..][width..] == bits[at + width..]
  {
    StandsAfter(bits, at, 0, width, v);
  }

  /** Numbers of a list, `width` bits each, from place `at` on. */
  ghost predicate ListStands(bits: seq<bool>, at: nat, width: nat, list: seq<nat>)
  {
    at + |list| * width <= |bits| && forall i :: 0 <= i < |list| ==> OneStands(bits, at, width, i, list[i])
  }

  ghost predicate OneStands(bits: seq<bool>, at: nat, width: nat, i: nat, v: nat)
  {
    Stands(bits, at + i * width, width, v)
  }

  lemma ListStandsMore(bits: seq<bool>, at: nat, width: nat, list: seq<nat>, v: nat)
    requires ListStands(bits, at, width, list) && Stands(bits[at + |list| * width..], 0, width, v)
    ensures (|list| + 1) * width == |list| * width + width && ListStands(bits, at, width, list + [v])
  {
    StandsAfter(bits, at + |list| * width, 0, width, v);
    assert OneStands(bits, at, width, |list|, v);
  }

  /** The items of `list`, each as `at` says, one after the other, and then `rest`. */
  ghost predicate Chain<T(!new)>(at: (seq<bool>, T, seq<bool>) -> bool, bits: seq<bool>, list: seq<T>, rest: seq<bool>)
    decreases |list|, 1
  {
    if list == [] then rest == bits else exists mid :: ChainLast(at, bits, list, mid, rest)
  }

  /** The last of them stands at the front of `mid`. */
  ghost predicate ChainLast<T(!new)>(at: (seq<bool>, T, seq<bool>) -> bool, bits: seq<bool>, list: seq<T>,
                                     mid: seq<bool>, rest: seq<bool>)
    requires list != []
    decreases |list|, 0
  {
    Chain(at, bits, list[..|list| - 1], mid) && at(mid, list[|list| - 1], rest)
  }

  lemma ChainMore<T(!new)>(at: (seq<bool>, T, seq<bool>) -> bool, bits: seq<bool>, list: seq<T>, x: T, mid: seq<bool>,
                           rest: seq<bool>)
    requires Chain(at, bits, list, mid) && at(mid, x, rest)
    ensures Chain(at, bits, list + [x], rest)
  {
    assert (list + [x])[..|list + [x]| - 1] == list;
    assert ChainLast(at, bits, list + [x], mid, rest);
  }

  lemma ChainEnds<T(!new)>(at: (seq<bool>, T, seq<bool>) -> bool, bits: seq<bool>)
    ensures Chain(at, bits, [], bits) && forall rest :: Chain(at, bits, [], rest) ==> rest == bits
  {
  }

  /** A list that says in six bits how many items more than one it has. */
  ghost predicate SectionAt<T(!new)>(at: (seq<bool>, T, seq<bool>) -> bool, bits: seq<bool>, list: seq<T>,
                                     rest: seq<bool>)
  {
    6 <= |bits| && Stands(bits, 0, 6, |list| - 1) && Chain(at, bits[6..], list, rest)
  }

  /** Write one number of those still to be written on the way to `all`. */
  method PutField(opb: OggPackBuffer, value: nat, width: nat, ghost rest: seq<Field>, ghost all: seq<bool>)
    requires opb.bits + Row([Field(value, width)] + rest) == all
    modifies opb
    ensures opb.pos == old(opb.pos) && opb.bits + Row(rest) == all
  {
    hide Row, ToBits;
    RowFirst(value, width, rest);
    ghost var a, b, c := opb.bits, ToBits(value, width), Row(rest);
    assert a + (b + c) == (a + b) + c;
    opb.Write(value, width);
  }

  /** Read one number. */
  method GetField(opb: OggPackBuffer, width: nat, ghost known: bool, ghost value: nat, ghost rest: seq<Field>,
                  ghost more: seq<bool>)
      returns (v: int)
    requires opb.Valid() && (known ==> value < Pow2(width) && Next(opb, [Field(value, width)] + rest, more))
    modifies opb
    ensures opb.Valid() && opb.bits == old(opb.bits) && -1 <= v < Pow2(width)
    ensures v == -1 <==> width > |old(opb.Rest())|
    ensures v == -1 ==> opb.Rest() == []
    ensures v >= 0 ==> Stands(old(opb.Rest()), 0, width, v) && opb.Rest() == old(opb.Rest())[width..]
    ensures known ==> v == value && Next(opb, rest, more)
  {
    hide Row, ToBits, Pow2;
    if known {
      RowFirst(value, width, rest);
      ghost var b, c := ToBits(value, width), Row(rest);
      assert (b + c) + more == b + (c + more);
    }
    v := opb.ReadBack(width, known, value, Row(rest) + more);
  }

  /** The numbers of a list from number `i` on, `width` bits each, and then `later`. */
  ghost function ListFields(list: seq<nat>, width: nat, i: nat, later: seq<Field>): seq<Field>
    decreases |list| - i
  {
    if i >= |list| then later else [Field(list[i], width)] + ListFields(list, width, i + 1, later)
  }

  ghost predicate Below(list: seq<nat>, n: nat)
  {
    forall i :: 0 <= i < |list| ==> list[i] < n
  }

  /** Write the numbers of a list up to number `upto`. */
  method PutList(opb: OggPackBuffer, list: seq<nat>, width: nat, from: nat, upto: nat, ghost later: seq<Field>,
                 ghost all: seq<bool>)
    requires from <= upto <= |list| && opb.bits + Row(ListFields(list, width, from, later)) == all
    modifies opb
    ensures opb.pos == old(opb.pos) && opb.bits + Row(ListFields(list, width, upto, later)) == all
  {
    hide Row;
    for i := from to upto
      invariant opb.pos == old(opb.pos) && opb.bits + Row(ListFields(list, width, i, later)) == all
    {
      PutField(opb, list[i], width, ListFields(list, width, i + 1, later), all);
    }
  }

  /** A list read on from where its beginning ends. */
  lemma ListsJoin(bits: seq<bool>, width: nat, got: seq<nat>, now: seq<nat>, rest: seq<bool>)
    requires |got| * width <= |bits| && rest == bits[|got| * width..] && got <= now
    requires ListStands(bits, 0, width, got) && ListStands(rest, 0, width, now[|got|..])
    ensures |now| * width <= |bits| && ListStands(bits, 0, width, now)
    ensures (|now| - |got|) * width <= |rest| && rest[(|now| - |got|) * width..] == bits[|now| * width..]
  {
    hide OneStands;
    var n, m := |got|, |now| - |got|;
    var tail := now[n..];
    PlacesAdd(n, m, width);
    forall i | 0 <= i < |now|
      ensures OneStands(bits, 0, width, i, now[i])
    {
      if i < n {
        assert OneStands(bits, 0, width, i, got[i]);
      } else {
        assert OneStands(rest, 0, width, i - n, tail[i - n]);
        OneStandsAfter(bits, width, n, i - n, now[i]);
      }
    }
    RestAfter(bits, n * width, m * width);
  }

  lemma PlacesAdd(n: nat, m: nat, width: nat)
    ensures (n + m) * width == n * width + m * width
  {
  }

  lemma OneStandsAfter(bits: seq<bool>, width: nat, n: nat, i: nat, v: nat)
    requires n * width <= |bits| && OneStands(bits[n * width..], 0, width, i, v)
    ensures OneStands(bits, 0, width, n + i, v)
  {
    PlacesAdd(n, i, width);
    StandsAfter(bits, n * width, i * width, width, v);
  }

  lemma NoneStands(bits: seq<bool>, width: nat)
    ensures ListStands(bits, 0, width, []) && 0 * width == 0
  {
  }

  /** Read on in a list of which `got` is known, up to number `upto`. */
  method GetList(opb: OggPackBuffer, got: seq<nat>, upto: nat, width: nat, ghost known: bool, ghost list: seq<nat>,
                 ghost later: seq<Field>, ghost more: seq<bool>)
      returns (ok: bool, now: seq<nat>)
    requires opb.Valid() && |got| <= upto
    requires known ==>
      upto <= |list| && got == list[..|got|] && Below(list, Pow2(width))
      && Next(opb, ListFields(list, width, |got|, later), more)
    modifies opb
    ensures opb.Valid() && opb.bits == old(opb.bits)
    ensures ok ==> |now| == upto && got <= now && forall i :: |got| <= i < upto ==> now[i] < Pow2(width)
    ensures ok ==>
      ListStands(old(opb.Rest()), 0, width, now[|got|..]) && (upto - |got|) * width <= |old(opb.Rest())|
      && opb.Rest() == old(opb.Rest())[(upto - |got|) * width..]
    ensures known ==> ok && now == list[..upto] && Next(opb, ListFields(list, width, upto, later), more)
  {
    hide Row, Pow2, Next, ListStands, Stands, OggPackBuffer.Rest;
    ghost var bits := opb.Rest();
    ghost var read: seq<nat> := [];
    NoneStands(bits, width);
    now := got;
    while |now| < upto
      invariant |got| <= |now| <= upto && now == got + read && opb.Valid() && opb.bits == old(opb.bits)
      invariant forall i :: |got| <= i < |now| ==> now[i] < Pow2(width)
      invariant ListStands(bits, 0, width, read) && |read| * width <= |bits| && opb.Rest() == bits[|read| * width..]
      invariant known ==> now == list[..|now|] && Next(opb, ListFields(list, width, |now|, later), more)
    {
      var v := GetField(opb, width, known, if known then list[|now|] else 0,
                        if known then ListFields(list, width, |now| + 1, later) else [], more);
      if v < 0 {
        return false, now;
      }
      ListStandsMore(bits, 0, width, read, v);
      NextStands(bits, |read| * width, width, v);
      read := read + [v];
      now := now + [v];
    }
    ok := true;
    assert now[|got|..] == read;
  }
}
