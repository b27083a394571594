/** Floor 1 in the packet: two raw ends, then for each partition a word choosing sub-books and the
    values coded with them (section 7.2.3 of the Vorbis I specification). */
module Floor1Packet {
  import opened BitMath
  import opened BitBuffer
  import opened Codebook
  import opened Phrases
  import opened Floor1
  import opened Fields
  import Lines

  /** A partition class: `dim` values, each coded with one of `2^subs` sub-books (-1: always zero). */
  datatype PartClass = PartClass(dim: nat, subs: nat, book: nat, subbook: seq<int>)
  {
    ghost predicate Valid(books: nat)
    {
      && 1 <= dim <= 8 && subs <= 3 && |subbook| == Csub() && (subs > 0 ==> book < books)
      && forall k :: 0 <= k < |subbook| ==> -1 <= subbook[k] < books
    }

    function Csub(): (n: nat)
      ensures n > 0
    {
      Pow2(subs)
    }
  }

  /** Number of entries of each book. */
  ghost predicate Entries(shelf: Shelf, entries: seq<nat>)
  {
    |entries| == |shelf.lens| && forall k :: 0 <= k < |entries| ==> entries[k] == |shelf.lens[k]|
  }

  /** One more than the largest value sub-book `l` can code. */
  function MaxVal(c: PartClass, entries: seq<nat>, l: nat): nat
    requires c.Valid(|entries|) && l < c.Csub()
  {
    if c.subbook[l] < 0 then 1 else entries[c.subbook[l]]
  }

  /** The first sub-book from `l` on that can code `v`; `Csub()` when none can. */
  function FirstFit(c: PartClass, entries: seq<nat>, v: int, l: nat): (r: nat)
    requires c.Valid(|entries|) && l <= c.Csub()
    ensures l <= r <= c.Csub()
    ensures r < c.Csub() ==> v < MaxVal(c, entries, r)
    decreases c.Csub() - l
  {
    if l == c.Csub() || v < MaxVal(c, entries, l) then l else FirstFit(c, entries, v, l + 1)
  }

  /** It is the first. */
  lemma {:induction false} NoneBefore(c: PartClass, entries: seq<nat>, v: int, l: nat, m: nat)
    requires c.Valid(|entries|) && l <= c.Csub() && l <= m < FirstFit(c, entries, v, l)
    ensures v >= MaxVal(c, entries, m)
    decreases m - l
  {
    if l < m {
      NoneBefore(c, entries, v, l + 1, m);
    }
  }

  function Bookas(c: PartClass, entries: seq<nat>, v: int): (r: nat)
    requires c.Valid(|entries|)
    ensures r < c.Csub()
  {
    var l := FirstFit(c, entries, v, 0);
    if l == c.Csub() then 0 else l
  }

  /** The choices of a partition as one number, `subs` bits each, the first value's lowest. */
  function Cval(c: PartClass, entries: seq<nat>, vs: seq<int>): nat
    requires c.Valid(|entries|)
  {
    if vs == [] then 0 else Bookas(c, entries, vs[0]) + c.Csub() * Cval(c, entries, vs[1..])
  }

  function ValueTokens(c: PartClass, entries: seq<nat>, vs: seq<int>): seq<Token>
    requires c.Valid(|entries|) && forall k :: 0 <= k < |vs| ==> vs[k] >= 0
  {
    if vs == [] then []
    else
      var book := c.subbook[Bookas(c, entries, vs[0])];
      (if book >= 0 && vs[0] < entries[book] then [Token(book, vs[0])] else []) + ValueTokens(c, entries, vs[1..])
  }

  function PartTokens(c: PartClass, entries: seq<nat>, vs: seq<int>): seq<Token>
    requires c.Valid(|entries|) && forall k :: 0 <= k < |vs| ==> vs[k] >= 0
  {
    (if c.subs > 0 then [Token(c.book, Cval(c, entries, vs))] else []) + ValueTokens(c, entries, vs)
  }

  /** Some sub-book can code every value. */
  ghost predicate Coverable(c: PartClass, entries: seq<nat>, vs: seq<int>)
    requires c.Valid(|entries|)
  {
    forall k :: 0 <= k < |vs| ==> vs[k] >= 0 && FirstFit(c, entries, vs[k], 0) < c.Csub()
  }

  // ---------------------------------------------------------------------------------------------
  // What any packet says
  // ---------------------------------------------------------------------------------------------

  /** A value and the book it is read with, -1 for none. */
  datatype Pick = Pick(book: int, v: int)

  /** Its codeword stands next; a value without a book is zero. */
  ghost function PickAt(shelf: Shelf): (seq<bool>, Pick, seq<bool>) -> bool
  {
    (bits: seq<bool>, p: Pick, rest: seq<bool>) =>
      if p.book >= 0 then p.v >= 0 && Heard(shelf, p.book, p.v, bits, rest) else p.v == 0 && rest == bits
  }

  /** The choice for value `k`: so many bits further up in `cval`. */
  function Choice(c: PartClass, cval: nat, k: nat): (l: nat)
    ensures l < c.Csub()
  {
    cval / Pow2(c.subs * k) % c.Csub()
  }

  ghost predicate Picked(c: PartClass, cval: nat, vs: seq<int>, picks: seq<Pick>)
    requires |c.subbook| == c.Csub()
  {
    |picks| == |vs| && forall k :: 0 <= k < |vs| ==> picks[k] == Pick(c.subbook[Choice(c, cval, k)], vs[k])
  }

  /** A class with choices has a word for them, which stands before the values. */
  ghost predicate PartHeard(c: PartClass, shelf: Shelf, vs: seq<int>, cval: nat, picks: seq<Pick>, bits: seq<bool>,
                            mid: seq<bool>, rest: seq<bool>)
    requires |c.subbook| == c.Csub()
  {
    && (if c.subs > 0 then Heard(shelf, c.book, cval, bits, mid) else cval == 0 && mid == bits)
    && Picked(c, cval, vs, picks) && Chain(PickAt(shelf), mid, picks, rest)
  }

  /** The values of a partition of class `c`. */
  datatype Part = Part(c: PartClass, vs: seq<int>)

  ghost function PartAt(shelf: Shelf): (seq<bool>, Part, seq<bool>) -> bool
  {
    (bits: seq<bool>, p: Part, rest: seq<bool>) =>
      |p.c.subbook| == p.c.Csub() && |p.vs| == p.c.dim
      && exists cval: nat, picks, mid :: PartHeard(p.c, shelf, p.vs, cval, picks, bits, mid, rest)
  }

  /** The values of all partitions, one after the other. */
  ghost function Flat(parts: seq<Part>): seq<int>
  {
    if parts == [] then [] else Flat(parts[..|parts| - 1]) + parts[|parts| - 1].vs
  }

  ghost predicate InClasses(info: FloorInfo, parts: seq<Part>)
  {
    && |parts| <= |info.partitionclass|
    && forall i :: 0 <= i < |parts| ==>
         info.partitionclass[i] < |info.classes| && parts[i].c == info.classes[info.partitionclass[i]]
  }

  /** An end of the curve in `w` bits, -1 where there are no more. */
  ghost predicate EndAt(bits: seq<bool>, at: nat, w: nat, v: int)
  {
    if at + w <= |bits| then Stands(bits, at, w, v) else v == -1
  }

  /** After the mark, the two ends, and what the partitions hold. */
  ghost predicate FloorHeard(info: FloorInfo, shelf: Shelf, w: nat, outs: seq<int>, parts: seq<Part>, bits: seq<bool>,
                             mid: seq<bool>, rest: seq<bool>)
  {
    && |bits| >= 1 && bits[0] && |outs| >= 2 && EndAt(bits, 1, w, outs[0]) && EndAt(bits, 1 + w, w, outs[1])
    && mid == (if 1 + w + w <= |bits| then bits[1 + w + w..] else [])
    && |parts| == |info.partitionclass| && InClasses(info, parts) && Flat(parts) == outs[2..]
    && Chain(PartAt(shelf), mid, parts, rest)
  }

  /** The packet says the floor values `outs`, and then `rest`. */
  ghost predicate FloorSays(info: FloorInfo, shelf: Shelf, w: nat, outs: seq<int>, bits: seq<bool>, rest: seq<bool>)
  {
    exists parts, mid :: FloorHeard(info, shelf, w, outs, parts, bits, mid, rest)
  }

  lemma NextChoice(c: PartClass, cval: nat, k: nat)
    ensures Choice(c, cval, k) == (cval / Pow2(c.subs * k)) % c.Csub()
    ensures cval / Pow2(c.subs * (k + 1)) == cval / Pow2(c.subs * k) / c.Csub()
  {
    Pow2Add(c.subs * k, c.subs);
    assert c.subs * (k + 1) == c.subs * k + c.subs;
    DivDiv(cval, Pow2(c.subs * k), Pow2(c.subs));
  }

  lemma PickedMore(c: PartClass, shelf: Shelf, cval: nat, vs: seq<int>, picks: seq<Pick>, v: int, start: seq<bool>,
                   mid: seq<bool>, rest: seq<bool>)
    requires |c.subbook| == c.Csub() && Picked(c, cval, vs, picks) && Chain(PickAt(shelf), start, picks, mid)
    requires PickAt(shelf)(mid, Pick(c.subbook[Choice(c, cval, |vs|)], v), rest)
    ensures var more := picks + [Pick(c.subbook[Choice(c, cval, |vs|)], v)];
      Picked(c, cval, vs + [v], more) && Chain(PickAt(shelf), start, more, rest)
  {
    hide Choice, PickAt, Chain;
    ChainMore(PickAt(shelf), start, picks, Pick(c.subbook[Choice(c, cval, |vs|)], v), mid, rest);
  }

  lemma PartsMore(info: FloorInfo, shelf: Shelf, parts: seq<Part>, part: Part, start: seq<bool>, mid: seq<bool>,
                  rest: seq<bool>)
    requires InClasses(info, parts) && |parts| < |info.partitionclass|
    requires info.partitionclass[|parts|] < |info.classes| && part.c == info.classes[info.partitionclass[|parts|]]
    requires Chain(PartAt(shelf), start, parts, mid) && PartAt(shelf)(mid, part, rest)
    ensures InClasses(info, parts + [part]) && Flat(parts + [part]) == Flat(parts) + part.vs
    ensures Chain(PartAt(shelf), start, parts + [part], rest)
  {
    hide PartAt, Chain;
    ChainMore(PartAt(shelf), start, parts, part, mid, rest);
    assert (parts + [part])[..|parts + [part]| - 1] == parts;
  }

  // ---------------------------------------------------------------------------------------------
  // One partition
  // ---------------------------------------------------------------------------------------------

  /** The first sub-book that can code `v`. */
  method FindBook(c: PartClass, entries: seq<nat>, v: int) returns (bookas: nat)
    requires c.Valid(|entries|)
    ensures bookas == Bookas(c, entries, v)
  {
    bookas := 0;
    var l: nat := 0;
    while l < c.Csub()
      invariant 0 <= l <= c.Csub() && bookas == 0
      invariant FirstFit(c, entries, v, 0) == FirstFit(c, entries, v, l)
    {
      if v < MaxVal(c, entries, l) {
        bookas := l;
        break;
      }
      l := l + 1;
    }
  }

  /** Choose sub-books for a partition's values, and gather the choices in one number. */
  method ChooseBooks(c: PartClass, entries: seq<nat>, vs: seq<int>) returns (bookas: seq<nat>, cval: nat)
    requires c.Valid(|entries|)
    ensures |bookas| == |vs| && forall k :: 0 <= k < |vs| ==> bookas[k] == Bookas(c, entries, vs[k])
    ensures c.subs > 0 ==> cval == Cval(c, entries, vs)
  {
    hide Pow2, PartClass.Csub, Bookas;
    bookas := [];
    cval := 0;
    if c.subs == 0 {
      OnlyBook(c, entries);
      bookas := seq(|vs|, k => 0);
      return;
    }
    var scale: nat := 1;      // 1 << cshift
    var k := 0;
    while k < |vs|
      invariant 0 <= k <= |vs| && |bookas| == k
      invariant forall i :: 0 <= i < k ==> bookas[i] == Bookas(c, entries, vs[i])
      invariant cval + scale * Cval(c, entries, vs[k..]) == Cval(c, entries, vs)
    {
      var l := FindBook(c, entries, vs[k]);
      bookas := bookas + [l];
      assert vs[k..][1..] == vs[k + 1..];
      ShiftIn(cval, scale, l, c.Csub(), Cval(c, entries, vs[k + 1..]));
      cval := cval + l * scale;
      scale := scale * c.Csub();
      k := k + 1;
    }
    assert vs[|vs|..] == [];
  }

  lemma OnlyBook(c: PartClass, entries: seq<nat>)
    requires c.Valid(|entries|) && c.subs == 0
    ensures c.Csub() == 1 && forall v: int :: Bookas(c, entries, v) == 0
  {
  }

  lemma ShiftIn(cval: nat, scale: nat, digit: nat, csub: nat, rest: nat)
    ensures cval + scale * (digit + csub * rest) == (cval + digit * scale) + (scale * csub) * rest
  {
    MulAssoc(scale, csub, rest);
  }

  /** Reading the choices back, lowest first. */
  lemma FirstChoice(c: PartClass, entries: seq<nat>, vs: seq<int>)
    requires c.Valid(|entries|) && vs != []
    ensures var cval := Cval(c, entries, vs);
      cval % c.Csub() == Bookas(c, entries, vs[0]) && cval / c.Csub() == Cval(c, entries, vs[1..])
  {
    hide PartClass.Csub, Bookas;
    var rest := Cval(c, entries, vs[1..]);
    assert c.Csub() * rest == rest * c.Csub();
    DivModUnique(Cval(c, entries, vs), rest, c.Csub(), Bookas(c, entries, vs[0]));
  }

  ghost predicate AllNat(vs: seq<int>)
  {
    forall k :: 0 <= k < |vs| ==> vs[k] >= 0
  }

  lemma NoValues(c: PartClass, entries: seq<nat>)
    requires c.Valid(|entries|)
    ensures ValueTokens(c, entries, []) == []
  {
  }

  /** Every token of a partition is of a book there is. */
  lemma {:induction false} PartBooked(c: PartClass, entries: seq<nat>, shelf: Shelf, vs: seq<int>)
    requires c.Valid(|entries|) && |entries| == |shelf.lens| && AllNat(vs)
    ensures Booked(shelf, ValueTokens(c, entries, vs)) && Booked(shelf, PartTokens(c, entries, vs))
  {
    hide PartClass.Csub, Bookas, Cval;
    if vs != [] {
      PartBooked(c, entries, shelf, vs[1..]);
    }
  }

  method WritePartition(c: PartClass, entries: seq<nat>, vs: seq<int>, books: seq<EncodeBook>, b: OggPackBuffer,
                        ghost shelf: Shelf, ghost said: seq<Token>, ghost start: seq<bool>)
    requires c.Valid(|entries|) && Entries(shelf, entries) && Encoders(books, shelf) && AllNat(vs)
    requires Gone(shelf, said, b.bits, start)
    modifies b
    ensures Encoders(books, shelf) && b.pos == old(b.pos)
    ensures Gone(shelf, said + PartTokens(c, entries, vs), b.bits, start)
  {
    hide Encoders, PartClass.Csub, Bookas, Cval, ValueTokens, Gone;
    var bookas, cval := ChooseBooks(c, entries, vs);
    ghost var word := if c.subs > 0 then [Token(c.book, cval)] else [];
    ghost var done, all := said + word, said + PartTokens(c, entries, vs);
    assert said + [] == said;
    if c.subs > 0 {
      Put(books, shelf, c.book, cval, b, said, start);
    }
    assert all == done + ValueTokens(c, entries, vs);
    assert vs[0..] == vs;
    var k := 0;
    while k < |vs|
      invariant 0 <= k <= |vs| && Encoders(books, shelf) && b.pos == old(b.pos) && Gone(shelf, done, b.bits, start)
      invariant AllNat(vs[k..]) && all == done + ValueTokens(c, entries, vs[k..])
    {
      assert vs[k..][0] == vs[k] && vs[k..][1..] == vs[k + 1..];
      done := WriteValue(c, entries, bookas[k], vs[k..], books, b, shelf, done, start, all);
      k := k + 1;
    }
    NoValues(c, entries);
    assert vs[k..] == [];
    assert all == done;
  }

  method WriteValue(c: PartClass, entries: seq<nat>, bookas: nat, vs: seq<int>, books: seq<EncodeBook>,
                    b: OggPackBuffer,
                    ghost shelf: Shelf, ghost said: seq<Token>, ghost start: seq<bool>, ghost all: seq<Token>)
      returns (ghost done: seq<Token>)
    requires c.Valid(|entries|) && Entries(shelf, entries) && Encoders(books, shelf) && AllNat(vs)
    requires vs != [] && bookas == Bookas(c, entries, vs[0])
    requires Gone(shelf, said, b.bits, start) && all == said + ValueTokens(c, entries, vs)
    modifies b
    ensures Encoders(books, shelf) && b.pos == old(b.pos) && Gone(shelf, done, b.bits, start)
    ensures AllNat(vs[1..]) && all == done + ValueTokens(c, entries, vs[1..])
  {
    hide Encoders, PartClass.Csub, Bookas, Gone;
    ghost var rest := ValueTokens(c, entries, vs[1..]);
    done := said;
    var book := c.subbook[bookas];
    if book >= 0 && vs[0] < entries[book] {
      Put(books, shelf, book, vs[0], b, said, start);
      done := said + [Token(book, vs[0])];
      assert all == done + rest;
    } else {
      assert ValueTokens(c, entries, vs) == rest;
    }
  }

  /** The values of a partition. */
  method ReadPartition(c: PartClass, entries: seq<nat>, books: seq<DecodeBook>, b: OggPackBuffer,
                       ghost known: bool, ghost vs: seq<int>, ghost shelf: Shelf, ghost more: seq<Token>,
                       ghost tail: seq<bool>)
      returns (ok: bool, got: seq<int>)
    requires c.Valid(|entries|) && Entries(shelf, entries) && Decoders(books, shelf) && b.Valid()
    requires known ==> |vs| == c.dim && Coverable(c, entries, vs) && AllNat(vs)
    requires known ==> Coming(shelf, PartTokens(c, entries, vs) + more, b.Rest(), tail)
    modifies b
    ensures Decoders(books, shelf) && b.Valid() && b.bits == old(b.bits)
    ensures if ok then |got| == c.dim && AllNat(got) else Stopped(shelf, b.Rest())
    ensures ok ==> PartAt(shelf)(old(b.Rest()), Part(c, got), b.Rest())
    ensures known ==> ok && got == vs && Coming(shelf, more, b.Rest(), tail)
  {
    hide Decoders, PartClass.Csub, Bookas, Cval, ValueTokens, PartTokens, Choosing, Coverable, Coming, Stopped;
    hide Heard, PickAt, Chain, Picked, Choice, Pow2;
    ghost var bits := b.Rest();
    var cval;
    ok, cval := ReadChoices(c, entries, books, b, known, vs, shelf, more, tail);
    if !ok {
      return false, [];
    }
    got := [];
    var k := 0;
    ghost var first: nat, mid, picks: seq<Pick> := cval, b.Rest(), [];
    NonePicked(c, shelf, first, mid);
    assert vs[0..] == vs;
    while k < c.dim
      invariant 0 <= k <= c.dim && Decoders(books, shelf) && b.Valid() && b.bits == old(b.bits)
      invariant |got| == k && AllNat(got) && cval >= 0 && cval == first / Pow2(c.subs * k)
      invariant Picked(c, first, got, picks) && Chain(PickAt(shelf), mid, picks, b.Rest())
      invariant known ==> got == vs[..k] && AllNat(vs[k..]) && Choosing(c, entries, vs[k..], cval)
      invariant known ==> Coming(shelf, ValueTokens(c, entries, vs[k..]) + more, b.Rest(), tail)
    {
      if known {
        assert vs[k..][0] == vs[k] && vs[k..][1..] == vs[k + 1..];
        CoveredToken(c, entries, vs, k);
      }
      NextChoice(c, first, k);
      ghost var now := b.Rest();
      var v;
      ok, v, cval := ReadValue(c, entries, cval, books, b, known, if known then vs[k..] else [], shelf, more, tail);
      if !ok {
        return false, [];
      }
      PickedMore(c, shelf, first, got, picks, v, mid, now, b.Rest());
      picks := picks + [Pick(c.subbook[Choice(c, first, k)], v)];
      got := got + [v];
      k := k + 1;
    }
    PartIs(c, shelf, got, first, picks, bits, mid, b.Rest());
    NoValues(c, entries);
    assert known ==> vs[k..] == [];
    assert [] + more == more;
    ok := true;
  }

  lemma NonePicked(c: PartClass, shelf: Shelf, cval: nat, bits: seq<bool>)
    requires |c.subbook| == c.Csub()
    ensures Picked(c, cval, [], []) && Chain(PickAt(shelf), bits, [], bits) && cval == cval / Pow2(c.subs * 0)
  {
    ChainEnds(PickAt(shelf), bits);
    assert c.subs * 0 == 0;
  }

  lemma PartIs(c: PartClass, shelf: Shelf, vs: seq<int>, cval: nat, picks: seq<Pick>, bits: seq<bool>, mid: seq<bool>,
               rest: seq<bool>)
    requires |c.subbook| == c.Csub() && PartHeard(c, shelf, vs, cval, picks, bits, mid, rest) && |vs| == c.dim
    ensures PartAt(shelf)(bits, Part(c, vs), rest)
  {
    hide PartHeard;
  }

  /** The word that chooses the sub-books, if the class has one. */
  method ReadChoices(c: PartClass, entries: seq<nat>, books: seq<DecodeBook>, b: OggPackBuffer,
                     ghost known: bool, ghost vs: seq<int>, ghost shelf: Shelf, ghost more: seq<Token>,
                     ghost tail: seq<bool>)
      returns (ok: bool, cval: int)
    requires c.Valid(|entries|) && Entries(shelf, entries) && Decoders(books, shelf) && b.Valid()
    requires known ==> AllNat(vs) && Coming(shelf, PartTokens(c, entries, vs) + more, b.Rest(), tail)
    modifies b
    ensures Decoders(books, shelf) && b.Valid() && b.bits == old(b.bits)
    ensures if ok then cval >= 0 else Stopped(shelf, b.Rest())
    ensures ok ==>
      if c.subs > 0 then Heard(shelf, c.book, cval, old(b.Rest()), b.Rest()) else cval == 0 && b.Rest() == old(b.Rest())
    ensures known ==> ok && Choosing(c, entries, vs, cval)
    ensures known ==> Coming(shelf, ValueTokens(c, entries, vs) + more, b.Rest(), tail)
  {
    hide Decoders, PartClass.Csub, Cval, ValueTokens, Bookas, FirstFit, Coming, Stopped, Heard;
    ghost var left := if known then PartTokens(c, entries, vs) + more else [];
    cval := 0;
    if c.subs > 0 {
      assert known ==> left[0] == Token(c.book, Cval(c, entries, vs));
      cval := Get(books, shelf, c.book, b, known, left, tail);
      if cval == -1 {
        return false, cval;
      }
      assert known ==> left[1..] == ValueTokens(c, entries, vs) + more;
    } else {
      assert known ==> left == ValueTokens(c, entries, vs) + more;
    }
    ok := true;
  }

  /** `cval` holds the choices for the values `vs` still to come. */
  ghost predicate Choosing(c: PartClass, entries: seq<nat>, vs: seq<int>, cval: int)
    requires c.Valid(|entries|)
  {
    if c.subs > 0 then cval == Cval(c, entries, vs) else cval == 0
  }

  method ReadValue(c: PartClass, entries: seq<nat>, cval: int, books: seq<DecodeBook>, b: OggPackBuffer,
                   ghost known: bool, ghost vs: seq<int>, ghost shelf: Shelf, ghost more: seq<Token>,
                   ghost tail: seq<bool>)
      returns (ok: bool, v: int, cval': int)
    requires c.Valid(|entries|) && Entries(shelf, entries) && Decoders(books, shelf) && b.Valid() && cval >= 0
    requires known ==> vs != [] && AllNat(vs) && Choosing(c, entries, vs, cval)
    requires known ==>
      var book := c.subbook[Bookas(c, entries, vs[0])];
      if book >= 0 then vs[0] < entries[book] else vs[0] == 0
    requires known ==> Coming(shelf, ValueTokens(c, entries, vs) + more, b.Rest(), tail)
    modifies b
    ensures Decoders(books, shelf) && b.Valid() && b.bits == old(b.bits) && cval' >= 0
    ensures if ok then v >= 0 else Stopped(shelf, b.Rest())
    ensures cval' == cval / c.Csub()
    ensures ok ==> PickAt(shelf)(old(b.Rest()), Pick(c.subbook[cval % c.Csub()], v), b.Rest())
    ensures known ==> ok && v == vs[0] && Choosing(c, entries, vs[1..], cval')
    ensures known ==> Coming(shelf, ValueTokens(c, entries, vs[1..]) + more, b.Rest(), tail)
  {
    hide Decoders, PartClass.Csub, Bookas, FirstFit, Cval, ValueTokens, Choosing, Coming, Stopped, Heard;
    if known {
      Chosen(c, entries, vs, cval);
      NextValue(c, entries, vs);
    }
    var book := c.subbook[cval % c.Csub()];
    cval' := cval / c.Csub();
    ghost var left := if known then ValueTokens(c, entries, vs) + more else [];
    ghost var rest := if known then ValueTokens(c, entries, vs[1..]) else [];
    v := 0;
    if book >= 0 {
      assert known ==> left == [Token(book, vs[0])] + (rest + more);
      v := Get(books, shelf, book, b, known, left, tail);
      if v == -1 {
        return false, v, cval';
      }
      assert known ==> left[1..] == rest + more;
    } else {
      assert known ==> ValueTokens(c, entries, vs) == rest;
    }
    ok := true;
  }

  lemma NextValue(c: PartClass, entries: seq<nat>, vs: seq<int>)
    requires c.Valid(|entries|) && vs != [] && AllNat(vs)
    ensures
      var book, rest := c.subbook[Bookas(c, entries, vs[0])], ValueTokens(c, entries, vs[1..]);
      ValueTokens(c, entries, vs) == (if book >= 0 && vs[0] < entries[book] then [Token(book, vs[0])] else []) + rest
  {
  }

  /** The sub-book the reader finds for the next value is the writer's. */
  lemma Chosen(c: PartClass, entries: seq<nat>, vs: seq<int>, cval: int)
    requires c.Valid(|entries|) && vs != [] && Choosing(c, entries, vs, cval)
    ensures cval % c.Csub() == Bookas(c, entries, vs[0]) && Choosing(c, entries, vs[1..], cval / c.Csub())
  {
    hide Bookas;
    if c.subs > 0 {
      FirstChoice(c, entries, vs);
    } else {
      OnlyBook(c, entries);
    }
  }

  /** A value is coded by its sub-book, or is zero and has none. */
  lemma CoveredToken(c: PartClass, entries: seq<nat>, vs: seq<int>, k: nat)
    requires c.Valid(|entries|) && Coverable(c, entries, vs) && k < |vs|
    ensures var book := c.subbook[Bookas(c, entries, vs[k])];
      vs[k] >= 0 && if book >= 0 then vs[k] < entries[book] else vs[k] == 0
  {
    hide PartClass.Csub;
  }

  // ---------------------------------------------------------------------------------------------
  // The whole floor
  // ---------------------------------------------------------------------------------------------

  datatype FloorInfo = FloorInfo(partitionclass: seq<nat>, classes: seq<PartClass>)
  {
    ghost predicate Valid(books: nat)
    {
      && (forall i :: 0 <= i < |partitionclass| ==> partitionclass[i] < |classes|)
      && (forall k :: 0 <= k < |classes| ==> classes[k].Valid(books))
    }

    function Class(i: nat): PartClass
      requires i < |partitionclass| && forall k :: 0 <= k < |partitionclass| ==> partitionclass[k] < |classes|
    {
      classes[partitionclass[i]]
    }

    /** Values of partitions `i` and up. */
    function Values(i: nat): nat
      requires i <= |partitionclass| && forall k :: 0 <= k < |partitionclass| ==> partitionclass[k] < |classes|
      decreases |partitionclass| - i
    {
      if i == |partitionclass| then 0 else Class(i).dim + Values(i + 1)
    }
  }

  /** The codewords for values `vs` in partitions `i` and up. */
  function TokensFrom(info: FloorInfo, entries: seq<nat>, i: nat, vs: seq<int>): seq<Token>
    requires info.Valid(|entries|) && i <= |info.partitionclass| && |vs| == info.Values(i) && AllNat(vs)
    decreases |info.partitionclass| - i
  {
    if i == |info.partitionclass| then []
    else
      var c := info.Class(i);
      PartTokens(c, entries, vs[..c.dim]) + TokensFrom(info, entries, i + 1, vs[c.dim..])
  }

  ghost predicate CoverableFrom(info: FloorInfo, entries: seq<nat>, i: nat, vs: seq<int>)
    requires info.Valid(|entries|) && i <= |info.partitionclass| && |vs| == info.Values(i)
    decreases |info.partitionclass| - i
  {
    if i == |info.partitionclass| then true
    else
      var c := info.Class(i);
      Coverable(c, entries, vs[..c.dim]) && CoverableFrom(info, entries, i + 1, vs[c.dim..])
  }

  /** What can be written: values that match the partitions, and ends in range. */
  ghost predicate Shaped(info: FloorInfo, shelf: Shelf, entries: seq<nat>, look: Look, out: seq<int>)
  {
    && shelf.Valid() && Entries(shelf, entries) && info.Valid(|entries|) && |out| == 2 + info.Values(0) && AllNat(out)
    && out[0] < look.Q() && out[1] < look.Q()
  }

  /** What can be sent: some sub-book can code each value, and the books have the codewords. */
  ghost predicate Sendable(info: FloorInfo, shelf: Shelf, entries: seq<nat>, look: Look, out: seq<int>)
  {
    && Shaped(info, shelf, entries, look, out)
    && CoverableFrom(info, entries, 0, out[2..]) && Known(shelf, TokensFrom(info, entries, 0, out[2..]))
  }

  lemma {:induction false} TokensBooked(info: FloorInfo, entries: seq<nat>, shelf: Shelf, i: nat, vs: seq<int>)
    requires info.Valid(|entries|) && i <= |info.partitionclass| && |vs| == info.Values(i) && AllNat(vs)
    requires |entries| == |shelf.lens|
    ensures Booked(shelf, TokensFrom(info, entries, i, vs))
    decreases |info.partitionclass| - i
  {
    hide PartTokens, PartClass.Valid;
    if i < |info.partitionclass| {
      var c := info.Class(i);
      PartBooked(c, entries, shelf, vs[..c.dim]);
      TokensBooked(info, entries, shelf, i + 1, vs[c.dim..]);
    }
  }

  /** A coded floor: the mark, the two ends, the partitions. A value that no sub-book can code has no bits. */
  ghost function FloorBits(info: FloorInfo, shelf: Shelf, entries: seq<nat>, look: Look, out: seq<int>): seq<bool>
    requires Shaped(info, shelf, entries, look, out)
  {
    var w, ts := ILog(look.Q() - 1), TokensFrom(info, entries, 0, out[2..]);
    TokensBooked(info, entries, shelf, 0, out[2..]);
    [true] + (ToBits(out[0], w) + ToBits(out[1], w) + Spelled(shelf, ts))
  }

  ghost function Quantized(mult: nat, post: seq<int>): (r: seq<int>)
    ensures |r| == |post|
  {
    seq(|post|, i requires 0 <= i < |post| => QuantizePost(mult, post[i]))
  }

  /** Posts that the encoder may be handed: heights below 1024, and unflagged ends. */
  ghost predicate Postable(look: Look, post: seq<int>)
    requires look.Valid()
  {
    && |post| == |look.postlist| && (forall i :: 0 <= i < |post| ==> Lines.Masked(post[i]) < 1024)
    && !Lines.Flagged(post[0]) && !Lines.Flagged(post[1])
  }

  lemma PostableMeans(info: FloorInfo, shelf: Shelf, entries: seq<nat>, look: Look, post: seq<int>)
    requires look.Valid() && Postable(look, post) && shelf.Valid() && Entries(shelf, entries) && info.Valid(|entries|)
    requires |look.postlist| == 2 + info.Values(0)
    ensures PostsOk(look, Quantized(look.mult, post)) && !Lines.Flagged(Quantized(look.mult, post)[0])
    ensures Shaped(info, shelf, entries, look, Outs(look, Quantized(look.mult, post)))
  {
    hide Lines.Masked, Lines.Flagged, FloorInfo.Valid, FloorInfo.Values, Outs, Look.Valid;
    MultOk(look);
    forall i | 0 <= i < |post|
      ensures PostOk(look.Q(), QuantizePost(look.mult, post[i]))
    {
      QuantizedOk(look.mult, post[i]);
    }
    EndOk(look.mult, post[0]);
    EndOk(look.mult, post[1]);
    OutsInRange(look, Quantized(look.mult, post));
  }

  lemma EndOk(mult: nat, v: int)
    requires 1 <= mult <= 4 && !Lines.Flagged(v) && Lines.Masked(v) < 1024
    ensures 0 <= QuantizePost(mult, v) < QuantQ(mult) && !Lines.Flagged(QuantizePost(mult, v))
  {
  }

  /** Everything sent is a number below `Q`. */
  lemma OutsInRange(look: Look, post: seq<int>)
    requires look.Valid() && PostsOk(look, post) && 0 <= post[0] < look.Q() && 0 <= post[1] < look.Q()
    ensures AllNat(Outs(look, post)) && Outs(look, post)[0] == post[0] && Outs(look, post)[1] == post[1]
  {
    hide SendRun, Sent, PostOk;
    forall i | 2 <= i < |post|
      ensures Sent(look, SendRun(look, post, i), i) >= 0
    {
      SendRunOk(look, post, i);
      SendStepOk(look, SendRun(look, post, i), i);
    }
  }

  lemma OneBit()
    ensures ToBits(0, 1) == [false] && ToBits(1, 1) == [true]
  {
    assert ToBits(0, 0) == [] && ToBits(1, 1) == [true] + ToBits(0, 0);
  }

  lemma FloorBitsAre(info: FloorInfo, shelf: Shelf, entries: seq<nat>, look: Look, outs: seq<int>, start: seq<bool>,
                     ends: seq<bool>, bits: seq<bool>)
    requires Shaped(info, shelf, entries, look, outs)
    requires var w := ILog(look.Q() - 1); ends == start + [true] + ToBits(outs[0], w) + ToBits(outs[1], w)
    requires Gone(shelf, TokensFrom(info, entries, 0, outs[2..]), bits, ends)
    ensures bits == start + FloorBits(info, shelf, entries, look, outs)
  {
    hide Spelled, TokensFrom, CoverableFrom, FloorInfo.Valid, FloorInfo.Values, Shelf.Valid, ILog, ToBits;
    var w := ILog(look.Q() - 1);
    var a, c, d, e := [true], ToBits(outs[0], w), ToBits(outs[1], w),
                      Spelled(shelf, TokensFrom(info, entries, 0, outs[2..]));
    assert start + a + c + d + e == start + (a + (c + d + e));
  }

  method WritePartitions(info: FloorInfo, entries: seq<nat>, vs: seq<int>, books: seq<EncodeBook>, b: OggPackBuffer,
                         ghost shelf: Shelf)
    requires info.Valid(|entries|) && |vs| == info.Values(0) && AllNat(vs)
    requires shelf.Valid() && Entries(shelf, entries) && Encoders(books, shelf)
    modifies b
    ensures Encoders(books, shelf) && b.pos == old(b.pos)
    ensures Gone(shelf, TokensFrom(info, entries, 0, vs), b.bits, old(b.bits))
  {
    hide Encoders, Shelf.Valid, PartTokens, PartClass.Valid, Gone;
    ghost var start, all := b.bits, TokensFrom(info, entries, 0, vs);
    ghost var done: seq<Token> := [];
    NothingGone(shelf, start);
    assert [] + all == all;
    var i, j := 0, 0;
    while i < |info.partitionclass|
      invariant 0 <= i <= |info.partitionclass| && 0 <= j <= |vs| && |vs[j..]| == info.Values(i) && AllNat(vs[j..])
      invariant Encoders(books, shelf) && b.pos == old(b.pos) && Gone(shelf, done, b.bits, start)
      invariant all == done + TokensFrom(info, entries, i, vs[j..])
    {
      var c := info.Class(i);
      assert vs[j..][..c.dim] == vs[j..j + c.dim] && vs[j..][c.dim..] == vs[j + c.dim..];
      ghost var ts, rest := PartTokens(c, entries, vs[j..j + c.dim]), TokensFrom(info, entries, i + 1, vs[j + c.dim..]);
      WritePartition(c, entries, vs[j..j + c.dim], books, b, shelf, done, start);
      Regroup(done, ts, rest);
      done := done + ts;
      i, j := i + 1, j + c.dim;
    }
    assert done == all;
  }

  /** The packet goes on with the values `vs` of partitions `i` and up, all of them codable. */
  ghost predicate Ahead(info: FloorInfo, shelf: Shelf, entries: seq<nat>, i: nat, vs: seq<int>, bits: seq<bool>,
                        tail: seq<bool>)
  {
    && info.Valid(|entries|) && i <= |info.partitionclass| && |vs| == info.Values(i) && AllNat(vs)
    && CoverableFrom(info, entries, i, vs) && Coming(shelf, TokensFrom(info, entries, i, vs), bits, tail)
  }

  /** The same, with the values `now` of partition `i` apart. */
  ghost predicate Parted(info: FloorInfo, shelf: Shelf, entries: seq<nat>, i: nat, c: PartClass, now: seq<int>,
                         later: seq<int>, bits: seq<bool>, tail: seq<bool>)
    requires info.Valid(|entries|) && i < |info.partitionclass|
  {
    && c.Valid(|entries|) && |now| == c.dim && AllNat(now) && Coverable(c, entries, now)
    && |later| == info.Values(i + 1) && AllNat(later) && CoverableFrom(info, entries, i + 1, later)
    && Coming(shelf, PartTokens(c, entries, now) + TokensFrom(info, entries, i + 1, later), bits, tail)
  }

  lemma AheadNow(info: FloorInfo, shelf: Shelf, entries: seq<nat>, i: nat, c: PartClass, vs: seq<int>, bits: seq<bool>,
                 tail: seq<bool>)
    requires info.Valid(|entries|) && i < |info.partitionclass| && c == info.Class(i)
    requires Ahead(info, shelf, entries, i, vs, bits, tail)
    ensures |vs| >= c.dim && Parted(info, shelf, entries, i, c, vs[..c.dim], vs[c.dim..], bits, tail)
  {
    hide PartTokens, Coverable, PartClass.Valid, Coming;
  }

  method ReadPartitions(info: FloorInfo, entries: seq<nat>, books: seq<DecodeBook>, b: OggPackBuffer,
                        ghost known: bool, ghost vs: seq<int>, ghost shelf: Shelf, ghost tail: seq<bool>)
      returns (ok: bool, got: seq<int>, ghost parts: seq<Part>)
    requires info.Valid(|entries|) && Entries(shelf, entries) && Decoders(books, shelf) && b.Valid()
    requires known ==> Ahead(info, shelf, entries, 0, vs, b.Rest(), tail)
    modifies b
    ensures Decoders(books, shelf) && b.Valid() && b.bits == old(b.bits)
    ensures if ok then |got| == info.Values(0) && AllNat(got) else Stopped(shelf, b.Rest())
    ensures ok ==>
      && |parts| == |info.partitionclass| && InClasses(info, parts) && Flat(parts) == got
      && Chain(PartAt(shelf), old(b.Rest()), parts, b.Rest())
    ensures known ==> ok && got == vs && b.Rest() == tail
  {
    hide Decoders, PartTokens, Coverable, PartClass.Valid, Entries, TokensFrom, CoverableFrom, Ahead, Coming, Stopped;
    hide PartAt, Chain, Flat;
    ghost var bits := b.Rest();
    NoParts(info, shelf, bits);
    got, parts := [], [];
    var i := 0;
    ghost var left := vs;
    while i < |info.partitionclass|
      invariant 0 <= i <= |info.partitionclass| && Decoders(books, shelf) && b.Valid() && b.bits == old(b.bits)
      invariant AllNat(got) && |got| + info.Values(i) == info.Values(0)
      invariant |parts| == i && InClasses(info, parts) && Flat(parts) == got
      invariant Chain(PartAt(shelf), bits, parts, b.Rest())
      invariant known ==> vs == got + left && Ahead(info, shelf, entries, i, left, b.Rest(), tail)
    {
      var part;
      ghost var mid := b.Rest();
      ok, part, left := ReadOne(info, entries, i, books, b, known, left, shelf, tail);
      if !ok {
        return false, [], [];
      }
      PartsMore(info, shelf, parts, Part(info.Class(i), part), bits, mid, b.Rest());
      parts := parts + [Part(info.Class(i), part)];
      if known {
        Regroup(got, part, left);
      }
      got, i := got + part, i + 1;
    }
    if known {
      AheadEnd(info, shelf, entries, left, b.Rest(), tail);
    }
    ok := true;
  }

  lemma NoParts(info: FloorInfo, shelf: Shelf, bits: seq<bool>)
    ensures InClasses(info, []) && Flat([]) == [] && Chain(PartAt(shelf), bits, [], bits)
  {
    ChainEnds(PartAt(shelf), bits);
  }

  /** Partition `i`. */
  method ReadOne(info: FloorInfo, entries: seq<nat>, i: nat, books: seq<DecodeBook>, b: OggPackBuffer,
                 ghost known: bool,
                 ghost left: seq<int>, ghost shelf: Shelf, ghost tail: seq<bool>)
      returns (ok: bool, part: seq<int>, ghost later: seq<int>)
    requires info.Valid(|entries|) && i < |info.partitionclass| && Entries(shelf, entries) && Decoders(books, shelf)
    requires b.Valid()
    requires known ==> Ahead(info, shelf, entries, i, left, b.Rest(), tail)
    modifies b
    ensures Decoders(books, shelf) && b.Valid() && b.bits == old(b.bits)
    ensures if ok then |part| + info.Values(i + 1) == info.Values(i) && AllNat(part) else Stopped(shelf, b.Rest())
    ensures ok ==> PartAt(shelf)(old(b.Rest()), Part(info.Class(i), part), b.Rest())
    ensures known ==> ok && left == part + later && Ahead(info, shelf, entries, i + 1, later, b.Rest(), tail)
  {
    hide Decoders, PartTokens, Coverable, PartClass.Valid, Entries, TokensFrom, CoverableFrom, Ahead, Coming, Stopped;
    hide PartAt;
    var c := info.Class(i);
    later := [];
    if known {
      AheadNow(info, shelf, entries, i, c, left, b.Rest(), tail);
      later := left[c.dim..];
    }
    ghost var now := if known then left[..c.dim] else [];
    ghost var rest := if known then TokensFrom(info, entries, i + 1, later) else [];
    ok, part := ReadPartition(c, entries, books, b, known, now, shelf, rest, tail);
    if known {
      AheadNext(info, shelf, entries, i + 1, later, b.Rest(), tail);
    }
  }

  lemma AheadNext(info: FloorInfo, shelf: Shelf, entries: seq<nat>, i: nat, vs: seq<int>, bits: seq<bool>,
                  tail: seq<bool>)
    requires info.Valid(|entries|) && i <= |info.partitionclass| && |vs| == info.Values(i) && AllNat(vs)
    requires CoverableFrom(info, entries, i, vs) && Coming(shelf, TokensFrom(info, entries, i, vs), bits, tail)
    ensures Ahead(info, shelf, entries, i, vs, bits, tail)
  {
  }

  lemma AheadEnd(info: FloorInfo, shelf: Shelf, entries: seq<nat>, vs: seq<int>, bits: seq<bool>, tail: seq<bool>)
    requires Ahead(info, shelf, entries, |info.partitionclass|, vs, bits, tail)
    ensures vs == [] && bits == tail
  {
    hide Coming;
    NothingComing(shelf, bits, tail);
  }

  /** Code a floor: quantise, predict, and write; without posts, only the mark that there is none. */
  method EncodeFloor(info: FloorInfo, look: Look, entries: seq<nat>, books: seq<EncodeBook>, b: OggPackBuffer,
                     post: array?<int>, ghost shelf: Shelf) returns (coded: bool)
    requires look.Valid() && info.Valid(|entries|) && |look.postlist| == 2 + info.Values(0)
    requires shelf.Valid() && Entries(shelf, entries) && Encoders(books, shelf)
    requires post != null ==> Postable(look, post[..])
    modifies b, post
    ensures Encoders(books, shelf) && b.pos == old(b.pos) && coded == (post != null)
    ensures post == null ==> b.bits == old(b.bits) + [false]
    ensures post != null ==>
      var quantized := Quantized(look.mult, old(post[..]));
      && post[..] == SendRun(look, quantized, |quantized|) && PostsOk(look, quantized)
      && Shaped(info, shelf, entries, look, Outs(look, quantized))
      && b.bits == old(b.bits) + FloorBits(info, shelf, entries, look, Outs(look, quantized))
  {
    hide Encoders, TokensFrom, Look.Valid, Outs, SendRun, FloorInfo.Valid, FloorInfo.Values, Shelf.Valid, ILog, Gone,
         FloorBits, Lines.Masked, Lines.Flagged, QuantizePost, PostOk;
    ghost var start := b.bits;
    if post == null {
      OneBit();
      b.Write(0, 1);
      return false;
    }
    MultOk(look);
    PostableMeans(info, shelf, entries, look, post[..]);
    QuantizePosts(look.mult, post);
    ghost var quantized := Quantized(look.mult, old(post[..]));
    assert post[..] == quantized;
    var out := SendPosts(look, post);
    var w := ILog(look.Q() - 1);
    OneBit();
    b.Write(1, 1);
    b.Write(out[0], w);
    b.Write(out[1], w);
    ghost var ends := b.bits;
    WritePartitions(info, entries, out[2..], books, b, shelf);
    FloorBitsAre(info, shelf, entries, look, Outs(look, quantized), start, ends, b.bits);
    coded := true;
  }

  /** The numbers at the front of a coded floor. */
  method ReadEnds(b: OggPackBuffer, w: nat, ghost known: bool, ghost y0: nat, ghost y1: nat, ghost rest: seq<bool>)
      returns (v0: int, v1: int)
    requires b.Valid()
    requires known ==> y0 < Pow2(w) && y1 < Pow2(w) && b.Rest() == ToBits(y0, w) + ToBits(y1, w) + rest
    modifies b
    ensures b.Valid() && b.bits == old(b.bits) && -1 <= v0 < Pow2(w) && -1 <= v1 < Pow2(w)
    ensures (v0 == -1 || v1 == -1 ==> b.Rest() == [])
    ensures EndAt(old(b.Rest()), 0, w, v0) && EndAt(old(b.Rest()), w, w, v1)
    ensures b.Rest() == if w + w <= |old(b.Rest())| then old(b.Rest())[w + w..] else []
    ensures known ==> v0 == y0 && v1 == y1 && b.Rest() == rest
  {
    hide ToBits, FromBits, Pow2;
    ghost var bits := b.Rest();
    if known {
      Regroup(ToBits(y0, w), ToBits(y1, w), rest);
    }
    v0 := b.ReadBack(w, known, y0, if known then ToBits(y1, w) + rest else []);
    v1 := b.ReadBack(w, known, y1, rest);
    assert |b.Rest()| == |b.bits| - b.pos;
    if w <= |bits| {
      assert bits[0..w] == bits[..w];
      if w + w <= |bits| {
        assert bits[w..][..w] == bits[w..w + w] && bits[w..][w..] == bits[w + w..];
      }
    }
  }

  /** Decode a floor. A packet that runs out holds none. From what the encoder wrote for quantised posts
      `sent`, if every value had a codeword, its final posts are rebuilt, and the packet is read exactly as far
      as it was written. */
  method DecodeFloor(info: FloorInfo, look: Look, entries: seq<nat>, books: seq<DecodeBook>, b: OggPackBuffer,
                     ghost known: bool, ghost sent: seq<int>, ghost shelf: Shelf,
                     ghost tail: seq<bool>) returns (fit: array?<int>, ghost heard: seq<int>)
    requires look.Valid() && b.Valid() && Decoders(books, shelf) && Entries(shelf, entries) && info.Valid(|entries|)
    requires |look.postlist| == 2 + info.Values(0)
    requires known && sent != [] ==>
      && |sent| == |look.postlist| && PostsOk(look, sent) && Sendable(info, shelf, entries, look, Outs(look, sent))
      && b.Rest() == FloorBits(info, shelf, entries, look, Outs(look, sent)) + tail
    requires known && sent == [] ==> b.Rest() == [false] + tail
    modifies b
    ensures Decoders(books, shelf) && b.Valid() && b.bits == old(b.bits)
    ensures fit != null ==> fresh(fit) && fit.Length == |look.postlist| && |old(b.Rest())| > 0 && old(b.Rest())[0]
    ensures fit == null ==> Stopped(shelf, b.Rest()) || (old(b.Rest()) != [] && !old(b.Rest())[0])
    ensures fit != null ==>
      && |heard| == |look.postlist| && fit[..] == ReceiveRun(look, heard, |heard|)
      && FloorSays(info, shelf, ILog(look.Q() - 1), heard, old(b.Rest()), b.Rest())
    ensures known ==> b.Rest() == tail && (sent == [] <==> fit == null)
    ensures known && fit != null ==> fit[..] == SendRun(look, sent, |sent|)
  {
    hide Decoders, Look.Valid, Outs, SendRun, FloorInfo.Valid, FloorInfo.Values, FloorBits, Coded, Sendable, PostsOk,
         PartClass.Valid, Entries, PostsHeard, FloorSays, OggPackBuffer.Rest, ILog;
    ghost var some := known && sent != [];
    ghost var outs := if some then Outs(look, sent) else [];
    if some {
      FloorBitsStart(info, shelf, entries, look, outs, tail);
    }
    ghost var coded := if some then FloorBits(info, shelf, entries, look, outs)[1..] + tail else tail;
    ghost var bits := b.Rest();
    var mark := ReadMark(b, known, some, coded);
    if mark != 1 {
      return null, [];
    }
    ghost var parts, mid;
    fit, heard, parts, mid := DecodePosts(info, look, entries, books, b, some, outs, shelf, tail);
    if fit != null {
      AfterMark(info, shelf, ILog(look.Q() - 1), heard, parts, bits, mid, b.Rest());
    }
    if some {
      SamePosts(look, sent);
    }
  }

  /** The ends and the partitions, as they stand behind the mark. */
  ghost predicate PostsHeard(info: FloorInfo, shelf: Shelf, w: nat, outs: seq<int>, parts: seq<Part>, bits: seq<bool>,
                             mid: seq<bool>, rest: seq<bool>)
  {
    && |outs| >= 2 && EndAt(bits, 0, w, outs[0]) && EndAt(bits, w, w, outs[1])
    && mid == (if w + w <= |bits| then bits[w + w..] else [])
    && |parts| == |info.partitionclass| && InClasses(info, parts) && Flat(parts) == outs[2..]
    && Chain(PartAt(shelf), mid, parts, rest)
  }

  lemma AfterMark(info: FloorInfo, shelf: Shelf, w: nat, outs: seq<int>, parts: seq<Part>, bits: seq<bool>,
                  mid: seq<bool>, rest: seq<bool>)
    requires |bits| >= 1 && bits[0] && PostsHeard(info, shelf, w, outs, parts, bits[1..], mid, rest)
    ensures FloorSays(info, shelf, w, outs, bits, rest)
  {
    hide Stands, Chain, PartAt, Flat, InClasses;
    if w <= |bits[1..]| {
      StandsAfter(bits, 1, 0, w, outs[0]);
    }
    if w + w <= |bits[1..]| {
      StandsAfter(bits, 1, w, w, outs[1]);
      RestAfter(bits, 1, w + w);
    }
    assert FloorHeard(info, shelf, w, outs, parts, bits, mid, rest);
  }

  /** The packet goes on with the ends and the partitions of `outs`, and then `tail`. */
  ghost predicate Coded(info: FloorInfo, shelf: Shelf, entries: seq<nat>, look: Look, outs: seq<int>, bits: seq<bool>,
                        tail: seq<bool>)
  {
    && Sendable(info, shelf, entries, look, outs) && Booked(shelf, TokensFrom(info, entries, 0, outs[2..]))
    && var w, parts := ILog(look.Q() - 1), Spelled(shelf, TokensFrom(info, entries, 0, outs[2..]));
    && bits == ToBits(outs[0], w) + ToBits(outs[1], w) + (parts + tail)
  }

  /** The ends, the partitions, and the posts they stand for. */
  method DecodePosts(info: FloorInfo, look: Look, entries: seq<nat>, books: seq<DecodeBook>, b: OggPackBuffer,
                     ghost known: bool, ghost outs: seq<int>, ghost shelf: Shelf,
                     ghost tail: seq<bool>)
      returns (fit: array?<int>, ghost heard: seq<int>, ghost parts: seq<Part>, ghost mid: seq<bool>)
    requires look.Valid() && b.Valid() && Decoders(books, shelf) && Entries(shelf, entries) && info.Valid(|entries|)
    requires |look.postlist| == 2 + info.Values(0)
    requires known ==> |outs| == |look.postlist| && Coded(info, shelf, entries, look, outs, b.Rest(), tail)
    modifies b
    ensures Decoders(books, shelf) && b.Valid() && b.bits == old(b.bits)
    ensures if fit == null then Stopped(shelf, b.Rest()) else fresh(fit) && fit.Length == |look.postlist|
    ensures fit != null ==>
      && |heard| == |look.postlist| && fit[..] == ReceiveRun(look, heard, |heard|)
      && PostsHeard(info, shelf, ILog(look.Q() - 1), heard, parts, old(b.Rest()), mid, b.Rest())
    ensures known ==> fit != null && b.Rest() == tail && fit[..] == ReceiveRun(look, outs, |outs|)
  {
    hide Decoders, Look.Valid, ReceiveRun, FloorInfo.Valid, FloorInfo.Values, ILog, Pow2, PartClass.Valid, Entries,
         PostsHeard, Coded, OggPackBuffer.Rest;
    var ok, values;
    ok, values, parts, mid := HearPosts(info, look, entries, books, b, known, outs, shelf, tail);
    heard := values;
    if !ok {
      return null, [], [], [];
    }
    fit := Rebuild(look, values);
  }

  /** The values, as they stand in the packet. */
  method HearPosts(info: FloorInfo, look: Look, entries: seq<nat>, books: seq<DecodeBook>, b: OggPackBuffer,
                   ghost known: bool, ghost outs: seq<int>, ghost shelf: Shelf, ghost tail: seq<bool>)
      returns (ok: bool, values: seq<int>, ghost parts: seq<Part>, ghost mid: seq<bool>)
    requires look.Valid() && b.Valid() && Decoders(books, shelf) && Entries(shelf, entries) && info.Valid(|entries|)
    requires |look.postlist| == 2 + info.Values(0)
    requires known ==> |outs| == |look.postlist| && Coded(info, shelf, entries, look, outs, b.Rest(), tail)
    modifies b
    ensures Decoders(books, shelf) && b.Valid() && b.bits == old(b.bits)
    ensures !ok ==> Stopped(shelf, b.Rest())
    ensures ok ==>
      && |values| == |look.postlist|
      && PostsHeard(info, shelf, ILog(look.Q() - 1), values, parts, old(b.Rest()), mid, b.Rest())
    ensures known ==> ok && values == outs && b.Rest() == tail
  {
    hide Decoders, TokensFrom, Look.Valid, FloorInfo.Valid, FloorInfo.Values, Shelf.Valid, ILog, Pow2, ToBits,
         PartClass.Valid, Ahead, Sendable, Entries, Spelled, EndAt, InClasses, Flat, Chain, PartAt, PostsHeard;
    hide OggPackBuffer.Rest, Stopped;
    ghost var bits := b.Rest();
    var w := ILog(look.Q() - 1);
    if known {
      SendableMeans(info, shelf, entries, look, outs);
    }
    ghost var left := if known then Spelled(shelf, TokensFrom(info, entries, 0, outs[2..])) else [];
    if known {
      PartsAhead(info, shelf, entries, look, outs, left, tail);
    }
    var v0, v1 := ReadEnds(b, w, known, if known then outs[0] else 0, if known then outs[1] else 0, left + tail);
    mid := b.Rest();
    var got;
    ok, got, parts := ReadPartitions(info, entries, books, b, known, if known then outs[2..] else [], shelf, tail);
    if !ok {
      return false, [], [], [];
    }
    values := [v0, v1] + got;
    assert known ==> values == outs;
    PostsAre(info, shelf, w, v0, v1, got, parts, bits, mid, b.Rest());
  }

  lemma PostsAre(info: FloorInfo, shelf: Shelf, w: nat, v0: int, v1: int, got: seq<int>, parts: seq<Part>,
                 bits: seq<bool>, mid: seq<bool>, rest: seq<bool>)
    requires EndAt(bits, 0, w, v0) && EndAt(bits, w, w, v1) && mid == (if w + w <= |bits| then bits[w + w..] else [])
    requires |parts| == |info.partitionclass| && InClasses(info, parts) && Flat(parts) == got
    requires Chain(PartAt(shelf), mid, parts, rest)
    ensures PostsHeard(info, shelf, w, [v0, v1] + got, parts, bits, mid, rest)
  {
    hide EndAt, InClasses, Flat, Chain, PartAt;
    assert ([v0, v1] + got)[2..] == got;
  }

  method Rebuild(look: Look, values: seq<int>) returns (fit: array<int>)
    requires look.Valid() && |values| == |look.postlist|
    ensures fresh(fit) && fit[..] == ReceiveRun(look, values, |values|)
  {
    hide Look.Valid, ReceiveRun;
    fit := new int[|values|](i requires 0 <= i < |values| => values[i]);
    assert fit[..] == values;
    ReceivePosts(look, fit);
  }

  method ReadMark(b: OggPackBuffer, ghost known: bool, ghost mark: bool, ghost rest: seq<bool>) returns (v: int)
    requires b.Valid() && (known ==> b.Rest() == [mark] + rest)
    modifies b
    ensures b.Valid() && b.bits == old(b.bits) && (known ==> v == (if mark then 1 else 0) && b.Rest() == rest)
    ensures if |old(b.Rest())| == 0 then v == -1 && b.Rest() == [] else v == if old(b.Rest())[0] then 1 else 0
    ensures |old(b.Rest())| > 0 ==> b.Rest() == old(b.Rest())[1..]
  {
    hide FromBits;
    assert known ==> b.Rest()[..1] == [mark] && [mark][1..] == [];
    ghost var was := b.Rest();
    if was != [] {
      assert was[..1] == [was[0]];
      FromOne(was[0]);
    }
    v := b.Read(1);
  }

  lemma FromOne(x: bool)
    ensures FromBits([x]) == if x then 1 else 0
  {
    assert [x][1..] == [];
  }

  lemma FloorBitsStart(info: FloorInfo, shelf: Shelf, entries: seq<nat>, look: Look, outs: seq<int>, tail: seq<bool>)
    requires Sendable(info, shelf, entries, look, outs)
    ensures Shaped(info, shelf, entries, look, outs) && |FloorBits(info, shelf, entries, look, outs)| >= 1
    ensures
      var bits := FloorBits(info, shelf, entries, look, outs);
      && bits + tail == [true] + (bits[1..] + tail) && Coded(info, shelf, entries, look, outs, bits[1..] + tail, tail)
  {
    hide Spelled, TokensFrom, CoverableFrom, FloorInfo.Valid, FloorInfo.Values, Shelf.Valid, ILog, ToBits;
    KnownBooked(shelf, TokensFrom(info, entries, 0, outs[2..]));
    var w := ILog(look.Q() - 1);
    var c, d, e := ToBits(outs[0], w), ToBits(outs[1], w), Spelled(shelf, TokensFrom(info, entries, 0, outs[2..]));
    assert ([true] + (c + d + e))[1..] == c + d + e;
    Regroup(c + d, e, tail);
  }

  lemma PartsAhead(info: FloorInfo, shelf: Shelf, entries: seq<nat>, look: Look, outs: seq<int>, parts: seq<bool>,
                   tail: seq<bool>)
    requires Sendable(info, shelf, entries, look, outs) && Booked(shelf, TokensFrom(info, entries, 0, outs[2..]))
    requires parts == Spelled(shelf, TokensFrom(info, entries, 0, outs[2..]))
    ensures Ahead(info, shelf, entries, 0, outs[2..], parts + tail, tail)
  {
    hide TokensFrom, CoverableFrom, FloorInfo.Valid, FloorInfo.Values, Shelf.Valid, Spelled, Known;
  }

  lemma SendableMeans(info: FloorInfo, shelf: Shelf, entries: seq<nat>, look: Look, outs: seq<int>)
    requires Sendable(info, shelf, entries, look, outs)
    ensures Shaped(info, shelf, entries, look, outs) && shelf.Valid() && info.Valid(|entries|)
    ensures |outs| == 2 + info.Values(0) && AllNat(outs[2..]) && Booked(shelf, TokensFrom(info, entries, 0, outs[2..]))
    ensures 0 <= outs[0] < Pow2(ILog(look.Q() - 1)) && 0 <= outs[1] < Pow2(ILog(look.Q() - 1))
  {
    hide TokensFrom, CoverableFrom, FloorInfo.Valid, FloorInfo.Values, Shelf.Valid, Spelled, Known;
    KnownBooked(shelf, TokensFrom(info, entries, 0, outs[2..]));
  }
}
