/** A floor of type 0 in the setup header (section 6.2.1 of the Vorbis I specification). It is only read: the
    encoder has no use for this type. */
module Floor0Setup {
  import opened Wrappers
  import opened BitMath
  import opened BitBuffer
  import opened Fields
  import StaticBook

  datatype Info = Info(order: nat, rate: nat, barkmap: nat, ampbits: nat, ampdB: nat, books: seq<nat>)
  {
    /** What the reader makes sure of. */
    ghost predicate Valid(shelf: seq<StaticBook.Book>)
    {
      && 1 <= order < 0x100 && 1 <= rate < 0x1_0000 && 1 <= barkmap < 0x1_0000 && ampbits < 64 && ampdB < 0x100
      && 1 <= |books| <= 16 && forall k :: 0 <= k < |books| ==> HasVectors(shelf, books[k])
    }
  }

  /** A book with values, in vectors of at least one component. */
  ghost predicate HasVectors(shelf: seq<StaticBook.Book>, b: nat)
  {
    b < |shelf| && shelf[b].mapping.Mapping? && shelf[b].dim >= 1
  }

  ghost function InfoFields(f: Info, later: seq<Field>): seq<Field>
  {
    [Field(f.order, 8)] + ([Field(f.rate, 16)] + ([Field(f.barkmap, 16)] + ([Field(f.ampbits, 6)]
      + ([Field(f.ampdB, 8)] + BookFields(f.books, later)))))
  }

  ghost function BookFields(books: seq<nat>, later: seq<Field>): seq<Field>
  {
    [Field(if |books| > 0 then |books| - 1 else 0, 4)] + ListFields(books, 8, 0, later)
  }

  /** A packet that is read as the floor `f` has its numbers in these places, and then `rest`. */
  ghost predicate Laid(bits: seq<bool>, f: Info, rest: seq<bool>)
  {
    && Stands(bits, 0, 8, f.order) && Stands(bits, 8, 16, f.rate) && Stands(bits, 24, 16, f.barkmap)
    && Stands(bits, 40, 6, f.ampbits) && Stands(bits, 46, 8, f.ampdB) && Stands(bits, 54, 4, |f.books| - 1)
    && 58 <= |bits| && ListStands(bits[58..], 0, 8, f.books) && |f.books| * 8 <= |bits[58..]|
    && rest == bits[58..][|f.books| * 8..]
  }

  method CheckBooks(books: seq<nat>, shelf: seq<StaticBook.Book>) returns (ok: bool)
    ensures ok <==> forall k :: 0 <= k < |books| ==> HasVectors(shelf, books[k])
  {
    for j := 0 to |books|
      invariant forall k :: 0 <= k < j ==> HasVectors(shelf, books[k])
    {
      if books[j] >= |shelf| || !shelf[books[j]].mapping.Mapping? || shelf[books[j]].dim < 1 {
        assert !HasVectors(shelf, books[j]);
        return false;
      }
    }
    ok := true;
  }

  lemma BooksBelow(f: Info, shelf: seq<StaticBook.Book>)
    requires f.Valid(shelf) && |shelf| <= 256
    ensures Below(f.books, Pow2(8))
  {
    hide Pow2;
    FieldPowers();
    forall k | 0 <= k < |f.books|
      ensures f.books[k] < 256
    {
      assert HasVectors(shelf, f.books[k]);
    }
  }

  /** Read a floor of type 0. Whatever the packet holds, an accepted one names books that have vectors; what is
      written in this form comes back. */
  method Unpack(shelf: seq<StaticBook.Book>, opb: OggPackBuffer, ghost known: bool, ghost f: Info,
                ghost later: seq<Field>, ghost more: seq<bool>)
      returns (result: Option<Info>)
    requires opb.Valid() && |shelf| <= 256 && (known ==> f.Valid(shelf) && Next(opb, InfoFields(f, later), more))
    modifies opb
    ensures opb.Valid() && opb.bits == old(opb.bits) && (result.Some? ==> result.value.Valid(shelf))
    ensures result.Some? ==> Laid(old(opb.Rest()), result.value, opb.Rest())
    ensures known ==> result == Some(f) && Next(opb, later, more)
  {
    hide Row, Next, Pow2, HasVectors, ListFields, Stands, ListStands, OggPackBuffer.Rest;
    FieldPowers();
    ghost var bits := opb.Rest();
    var order, rate, barkmap, ampbits, ampdB, numbooks := ReadHeads(opb, known, f, later, more);
    if order < 1 || rate < 1 || barkmap < 1 || numbooks < 1 {
      return None;
    }
    if known {
      BooksBelow(f, shelf);
    }
    var ok, books := GetList(opb, [], numbooks, 8, known, f.books, later, more);
    if !ok {
      return None;
    }
    assert known ==> f.books[..numbooks] == f.books;
    assert books[0..] == books;
    ok := CheckBooks(books, shelf);
    if !ok {
      return None;
    }
    EndOfList(f.books, later);
    result := Some(Info(order, rate, barkmap, ampbits, ampdB, books));
  }

  /** The numbers before the books; how many books there are is 0 where the packet has run out. */
  method ReadHeads(opb: OggPackBuffer, ghost known: bool, ghost f: Info, ghost later: seq<Field>,
                   ghost more: seq<bool>)
      returns (order: int, rate: int, barkmap: int, ampbits: int, ampdB: int, numbooks: int)
    requires opb.Valid()
    requires known ==>
      && f.order < 0x100 && f.rate < 0x1_0000 && f.barkmap < 0x1_0000 && f.ampbits < 64 && f.ampdB < 0x100
      && 1 <= |f.books| <= 16 && Next(opb, InfoFields(f, later), more)
    modifies opb
    ensures opb.Valid() && opb.bits == old(opb.bits) && 0 <= numbooks <= 16
    ensures numbooks >= 1 ==>
      && 0 <= order < 0x100 && 0 <= rate < 0x1_0000 && 0 <= barkmap < 0x1_0000 && 0 <= ampbits < 64
      && 0 <= ampdB < 0x100
      && HeadsAt(old(opb.Rest()), order, rate, barkmap, ampbits, ampdB, numbooks)
      && opb.Rest() == old(opb.Rest())[58..]
    ensures known ==>
      && order == f.order && rate == f.rate && barkmap == f.barkmap && ampbits == f.ampbits && ampdB == f.ampdB
      && numbooks == |f.books| && Next(opb, ListFields(f.books, 8, 0, later), more)
  {
    hide Row, Next, Pow2, ListFields, Stands, OggPackBuffer.Rest;
    FieldPowers();
    ghost var bits := opb.Rest();
    ghost var e := BookFields(f.books, later);
    ghost var d := [Field(f.ampdB, 8)] + e;
    ghost var c := [Field(f.ampbits, 6)] + d;
    ghost var b := [Field(f.barkmap, 16)] + c;
    order := GetField(opb, 8, known, f.order, [Field(f.rate, 16)] + b, more);
    rate := GetField(opb, 16, known, f.rate, b, more);
    barkmap := GetField(opb, 16, known, f.barkmap, c, more);
    ampbits := GetField(opb, 6, known, f.ampbits, d, more);
    ampdB := GetField(opb, 8, known, f.ampdB, e, more);
    numbooks := GetField(opb, 4, known, if |f.books| > 0 then |f.books| - 1 else 0,
                         ListFields(f.books, 8, 0, later), more);
    numbooks := numbooks + 1;
    if numbooks >= 1 {
      Heads(bits, order, rate, barkmap, ampbits, ampdB, numbooks - 1);
    }
  }

  ghost predicate HeadsAt(bits: seq<bool>, a: int, b: int, c: int, d: int, e: int, n: int)
  {
    && Stands(bits, 0, 8, a) && Stands(bits, 8, 16, b) && Stands(bits, 24, 16, c) && Stands(bits, 40, 6, d)
    && Stands(bits, 46, 8, e) && Stands(bits, 54, 4, n - 1) && 58 <= |bits|
  }

  /** Six numbers, one after the other. */
  lemma Heads(bits: seq<bool>, a: int, b: int, c: int, d: int, e: int, n: int)
    requires Stands(bits, 0, 8, a) && 8 <= |bits| && Stands(bits[8..], 0, 16, b)
    requires 16 <= |bits[8..]| && Stands(bits[8..][16..], 0, 16, c) && 16 <= |bits[8..][16..]|
    requires var r := bits[8..][16..][16..];
      Stands(r, 0, 6, d) && 6 <= |r| && Stands(r[6..], 0, 8, e) && 8 <= |r[6..]| && Stands(r[6..][8..], 0, 4, n)
    ensures Stands(bits, 8, 16, b) && Stands(bits, 24, 16, c) && Stands(bits, 40, 6, d) && Stands(bits, 46, 8, e)
    ensures Stands(bits, 54, 4, n) && 58 <= |bits| && bits[8..][16..][16..][6..][8..][4..] == bits[58..]
  {
    hide Stands;
    NextStands(bits, 8, 16, b);
    NextStands(bits, 24, 16, c);
    NextStands(bits, 40, 6, d);
    NextStands(bits, 46, 8, e);
    NextStands(bits, 54, 4, n);
  }

  lemma EndOfList(list: seq<nat>, later: seq<Field>)
    ensures ListFields(list, 8, |list|, later) == later
  {
  }
}
