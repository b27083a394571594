/** A floor in the setup header: partitions, their classes, and the post list (section 7.2.2 of the
    Vorbis I specification). */
module FloorSetup {
  import opened Wrappers
  import opened BitMath
  import opened BitBuffer
  import opened Fields
  import opened PointerSort
  import opened Floor1
  import opened Floor1Packet

  datatype Floor = Floor(info: FloorInfo, mult: nat, postlist: seq<nat>)
  {
    /** What the reader makes sure of, in a stream with `books` books. */
    ghost predicate Valid(books: nat)
    {
      && |info.partitionclass| <= 31 && Below(info.partitionclass, 16)
      && |info.classes| == MaxClass(info.partitionclass) + 1
      && (forall k :: 0 <= k < |info.classes| ==> info.classes[k].Valid(books))
      && 1 <= mult <= 4 && ValidPosts(postlist) && |postlist| == 2 + info.Values(0)
      && RangeBits() <= 15 && postlist[1] == Pow2(RangeBits())
    }

    /** Bits of a post; the last position is the power of two above all others. */
    function RangeBits(): nat
      requires |postlist| >= 2
    {
      if postlist[1] > 0 then ILog(postlist[1] - 1) else 0
    }
  }

  /** The greatest class in use, -1 for none. */
  function MaxClass(list: seq<nat>): (m: int)
    ensures m >= -1 && forall i :: 0 <= i < |list| ==> list[i] <= m
  {
    if list == [] then -1
    else
      var front := MaxClass(list[..|list| - 1]);
      if front < list[|list| - 1] then list[|list| - 1] else front
  }

  /** A sub-book number is written with one added, in eight bits. */
  function SubCode(s: int): nat
    requires s >= -1
  {
    s + 1
  }

  /** The last of 256 books cannot be a sub-book: its number would be read back as "no book". */
  lemma SubBookReadBack(s: int)
    requires -1 <= s < 256
    ensures FromBits(ToBits(SubCode(s), 8)) - 1 == s <==> s < 255
  {
    hide ToBits, FromBits;
    Pow2Facts();
    if s < 255 {
      FromToBits(SubCode(s), 8);
    } else {
      FromBitsBound(ToBits(SubCode(s), 8));
    }
  }

  ghost predicate Spellable(f: Floor)
  {
    forall k :: 0 <= k < |f.info.classes| ==> SubsFit(f.info.classes[k])
  }

  ghost predicate SubsFit(c: PartClass)
  {
    forall s :: 0 <= s < |c.subbook| ==> -1 <= c.subbook[s] < 255
  }

  /** The book of a class without choices is not written. */
  function PlainClass(c: PartClass): PartClass
  {
    if c.subs > 0 then c else c.(book := 0)
  }

  function Plain(f: Floor): Floor
  {
    f.(info := f.info.(classes := seq(|f.info.classes|,
                                      k requires 0 <= k < |f.info.classes| => PlainClass(f.info.classes[k]))))
  }

  function SubCodes(c: PartClass): (r: seq<nat>)
    requires forall s :: 0 <= s < |c.subbook| ==> c.subbook[s] >= -1
    ensures |r| == |c.subbook|
  {
    seq(|c.subbook|, s requires 0 <= s < |c.subbook| => SubCode(c.subbook[s]))
  }

  ghost function ClassFields(c: PartClass, later: seq<Field>): seq<Field>
    requires c.dim >= 1 && forall s :: 0 <= s < |c.subbook| ==> c.subbook[s] >= -1
  {
    [Field(c.dim - 1, 3)] + ([Field(c.subs, 2)] + BookFields(c, ListFields(SubCodes(c), 8, 0, later)))
  }

  ghost function BookFields(c: PartClass, later: seq<Field>): seq<Field>
  {
    if c.subs > 0 then [Field(c.book, 8)] + later else later
  }

  ghost predicate ClassesOk(classes: seq<PartClass>, books: nat)
  {
    forall k :: 0 <= k < |classes| ==> classes[k].Valid(books)
  }

  ghost function AllClassFields(classes: seq<PartClass>, books: nat, i: nat, later: seq<Field>): seq<Field>
    requires ClassesOk(classes, books)
    decreases |classes| - i
  {
    if i >= |classes| then later
    else
      assert classes[i].Valid(books);
      ClassFields(classes[i], AllClassFields(classes, books, i + 1, later))
  }

  ghost function PostFields(f: Floor, later: seq<Field>): seq<Field>
    requires f.mult >= 1 && |f.postlist| >= 2
  {
    [Field(f.mult - 1, 2)] + ([Field(f.RangeBits(), 4)] + ListFields(f.postlist[2..], f.RangeBits(), 0, later))
  }

  /** A floor in the header, before the fields `later`. */
  ghost function FloorFields(f: Floor, books: nat, later: seq<Field>): seq<Field>
    requires f.Valid(books)
  {
    [Field(|f.info.partitionclass|, 5)]
    + ListFields(f.info.partitionclass, 4, 0, AllClassFields(f.info.classes, books, 0, PostFields(f, later)))
  }

  // ---------------------------------------------------------------------------------------------
  // Writing
  // ---------------------------------------------------------------------------------------------

  method PackClass(c: PartClass, opb: OggPackBuffer, ghost books: nat, ghost later: seq<Field>, ghost all: seq<bool>)
    requires c.Valid(books) && opb.bits + Row(ClassFields(c, later)) == all
    modifies opb
    ensures opb.pos == old(opb.pos) && opb.bits + Row(later) == all
  {
    hide Row, Pow2;
    ghost var subs := ListFields(SubCodes(c), 8, 0, later);
    PutField(opb, c.dim - 1, 3, [Field(c.subs, 2)] + BookFields(c, subs), all);
    PutField(opb, c.subs, 2, BookFields(c, subs), all);
    if c.subs > 0 {
      PutField(opb, c.book, 8, subs, all);
    }
    PutList(opb, SubCodes(c), 8, 0, |c.subbook|, later, all);
  }

  /** Write a floor. */
  method Pack(f: Floor, opb: OggPackBuffer, ghost books: nat, ghost later: seq<Field>, ghost all: seq<bool>)
    requires f.Valid(books) && opb.bits + Row(FloorFields(f, books, later)) == all
    modifies opb
    ensures opb.pos == old(opb.pos) && opb.bits + Row(later) == all
  {
    hide Row, Pow2, ClassFields, FloorInfo.Values, ValidPosts;
    ghost var posts := PostFields(f, later);
    ghost var classes := AllClassFields(f.info.classes, books, 0, posts);
    PutField(opb, |f.info.partitionclass|, 5, ListFields(f.info.partitionclass, 4, 0, classes), all);
    PutList(opb, f.info.partitionclass, 4, 0, |f.info.partitionclass|, classes, all);
    for j := 0 to |f.info.classes|
      invariant opb.pos == old(opb.pos) && opb.bits + Row(AllClassFields(f.info.classes, books, j, posts)) == all
    {
      PackClass(f.info.classes[j], opb, books, AllClassFields(f.info.classes, books, j + 1, posts), all);
    }
    PackPosts(f, opb, books, later, all);
  }

  /** The multiplier, the range, and the posts partition by partition. */
  method PackPosts(f: Floor, opb: OggPackBuffer, ghost books: nat, ghost later: seq<Field>, ghost all: seq<bool>)
    requires f.Valid(books) && opb.bits + Row(PostFields(f, later)) == all
    modifies opb
    ensures opb.pos == old(opb.pos) && opb.bits + Row(later) == all
  {
    hide Row, Pow2, ValidPosts, PartClass.Valid, MaxClass, ListFields, FloorInfo.Valid;
    var rangebits := f.RangeBits();
    ghost var posts := ListFields(f.postlist[2..], rangebits, 0, later);
    PutField(opb, f.mult - 1, 2, [Field(rangebits, 4)] + posts, all);
    PutField(opb, rangebits, 4, posts, all);
    PackLists(f, opb, rangebits, books, later, all);
  }

  method PackLists(f: Floor, opb: OggPackBuffer, rangebits: nat, ghost books: nat, ghost later: seq<Field>,
                   ghost all: seq<bool>)
    requires f.Valid(books) && opb.bits + Row(ListFields(f.postlist[2..], rangebits, 0, later)) == all
    modifies opb
    ensures opb.pos == old(opb.pos) && opb.bits + Row(later) == all
  {
    hide Row, Pow2, ValidPosts, PartClass.Valid, MaxClass, ListFields;
    var count, k := 0, 0;
    for j := 0 to |f.info.partitionclass|
      invariant 0 <= count == k && count + f.info.Values(j) == |f.postlist| - 2
      invariant opb.pos == old(opb.pos)
      invariant opb.bits + Row(ListFields(f.postlist[2..], rangebits, k, later)) == all
    {
      count := count + f.info.Class(j).dim;
      PutList(opb, f.postlist[2..], rangebits, k, count, later, all);
      k := count;
    }
    NoFields(f.postlist[2..], rangebits, later);
  }

  lemma NoFields(list: seq<nat>, width: nat, later: seq<Field>)
    ensures ListFields(list, width, |list|, later) == later
  {
  }

  // ---------------------------------------------------------------------------------------------
  // Where a packet has each number
  // ---------------------------------------------------------------------------------------------

  /** Sub-book `k` in eight bits, with one added. */
  ghost predicate SubBookAt(bits: seq<bool>, k: nat, s: int)
  {
    Stands(bits, 0 + k * 8, 8, s + 1)
  }

  ghost predicate SubBooksAt(bits: seq<bool>, subbook: seq<int>, rest: seq<bool>)
  {
    && |subbook| * 8 <= |bits| && rest == bits[|subbook| * 8..]
    && forall k :: 0 <= k < |subbook| ==> SubBookAt(bits, k, subbook[k])
  }

  /** A class: its dimension less one, how many bits choose among its sub-books, its own book if any do, and the
      sub-books. */
  ghost predicate ClassAt(bits: seq<bool>, c: PartClass, rest: seq<bool>)
  {
    && 5 <= |bits| && Stands(bits, 0, 3, c.dim - 1) && Stands(bits, 3, 2, c.subs)
    && if c.subs > 0 then 13 <= |bits| && Stands(bits, 5, 8, c.book) && SubBooksAt(bits[13..], c.subbook, rest)
       else c.book == 0 && SubBooksAt(bits[5..], c.subbook, rest)
  }

  /** The multiplier less one, the width of a post, and the posts after the two ends, which are not written. */
  ghost predicate PostsAt(bits: seq<bool>, mult: nat, postlist: seq<nat>, width: nat, rest: seq<bool>)
  {
    && Stands(bits, 0, 2, mult - 1) && Stands(bits, 2, 4, width) && 6 <= |bits| && |postlist| >= 2
    && postlist[0] == 0 && postlist[1] == Pow2(width) && ListStands(bits[6..], 0, width, postlist[2..])
    && (|postlist| - 2) * width <= |bits[6..]| && rest == bits[6..][(|postlist| - 2) * width..]
  }

  /** The class of each partition, the classes, and the posts. */
  ghost predicate LaidAt(bits: seq<bool>, f: Floor, mid: seq<bool>, width: nat, rest: seq<bool>)
  {
    var n := |f.info.partitionclass|;
    && Stands(bits, 0, 5, n) && 5 <= |bits| && ListStands(bits[5..], 0, 4, f.info.partitionclass)
    && n * 4 <= |bits[5..]| && Chain(ClassAt, bits[5..][n * 4..], f.info.classes, mid)
    && PostsAt(mid, f.mult, f.postlist, width, rest)
  }

  /** A packet that is read as the floor `f` has its numbers in these places, and then `rest`. */
  ghost predicate Laid(bits: seq<bool>, f: Floor, rest: seq<bool>)
  {
    exists mid, width: nat :: LaidAt(bits, f, mid, width, rest)
  }

  lemma SubBooksFrom(bits: seq<bool>, codes: seq<nat>, subbook: seq<int>, rest: seq<bool>)
    requires ListStands(bits, 0, 8, codes) && |codes| == |subbook| && rest == bits[|codes| * 8..]
    requires forall k :: 0 <= k < |codes| ==> codes[k] == subbook[k] + 1
    ensures SubBooksAt(bits, subbook, rest)
  {
    forall k | 0 <= k < |subbook|
      ensures SubBookAt(bits, k, subbook[k])
    {
      assert OneStands(bits, 0, 8, k, codes[k]);
    }
  }

  /** One class, number after number. */
  lemma ClassReads(bits: seq<bool>, dim: nat, subs: nat, book: nat, codes: seq<nat>, subbook: seq<int>, at: nat)
    requires Stands(bits, 0, 3, dim) && 3 <= |bits| && Stands(bits[3..], 0, 2, subs) && 2 <= |bits[3..]|
    requires if subs > 0 then Stands(bits[3..][2..], 0, 8, book) && 8 <= |bits[3..][2..]| else book == 0
    requires |codes| == |subbook| && forall k :: 0 <= k < |codes| ==> codes[k] == subbook[k] + 1
    requires var r := if subs > 0 then bits[3..][2..][8..] else bits[3..][2..];
      ListStands(r, 0, 8, codes) && at == |codes| * 8 && at <= |r|
    ensures var r := if subs > 0 then bits[3..][2..][8..] else bits[3..][2..];
      ClassAt(bits, PartClass(dim + 1, subs, book, subbook), r[at..])
  {
    hide Stands, ListStands;
    NextStands(bits, 3, 2, subs);
    if subs > 0 {
      NextStands(bits, 5, 8, book);
      SubBooksFrom(bits[13..], codes, subbook, bits[13..][at..]);
    } else {
      SubBooksFrom(bits[5..], codes, subbook, bits[5..][at..]);
    }
  }

  // ---------------------------------------------------------------------------------------------
  // Reading
  // ---------------------------------------------------------------------------------------------

  /** Take the added one off again, refusing numbers of books there are not. */
  method SubBooks(codes: seq<nat>, books: nat, ghost known: bool, ghost c: PartClass)
      returns (ok: bool, subbook: seq<int>)
    requires known ==> c.Valid(books) && codes == SubCodes(c)
    ensures ok ==> |subbook| == |codes| && forall k :: 0 <= k < |subbook| ==> -1 <= subbook[k] < books
    ensures ok ==> forall k :: 0 <= k < |codes| ==> codes[k] == subbook[k] + 1
    ensures known ==> ok && subbook == c.subbook
  {
    hide Pow2;
    subbook := [];
    for k := 0 to |codes|
      invariant |subbook| == k && forall i :: 0 <= i < k ==> -1 <= subbook[i] < books
      invariant forall i :: 0 <= i < k ==> codes[i] == subbook[i] + 1
      invariant known ==> subbook == c.subbook[..k]
    {
      if codes[k] - 1 >= books {
        return false, [];
      }
      var code: int := codes[k];
      subbook := subbook + [code - 1];
    }
    ok := true;
  }

  method UnpackClass(books: nat, opb: OggPackBuffer, ghost known: bool, ghost c: PartClass, ghost later: seq<Field>,
                     ghost more: seq<bool>)
      returns (result: Option<PartClass>)
    requires opb.Valid() && 0 < books <= 256
    requires known ==> c.Valid(books) && SubsFit(c) && Next(opb, ClassFields(c, later), more)
    modifies opb
    ensures opb.Valid() && opb.bits == old(opb.bits) && (result.Some? ==> result.value.Valid(books))
    ensures result.Some? ==> ClassAt(old(opb.Rest()), result.value, opb.Rest())
    ensures known ==> result == Some(PlainClass(c)) && Next(opb, later, more)
  {
    hide Row, Pow2, Next, Stands, ListStands, OggPackBuffer.Rest, ClassAt;
    FieldPowers();
    ghost var start := opb.Rest();
    ghost var subs := if known then ListFields(SubCodes(c), 8, 0, later) else [];
    var dim := GetField(opb, 3, known, if known then c.dim - 1 else 0, [Field(c.subs, 2)] + BookFields(c, subs), more);
    dim := dim + 1;
    var bits := GetField(opb, 2, known, c.subs, BookFields(c, subs), more);
    if bits < 0 {
      return None;
    }
    var book := 0;
    if bits > 0 {
      book := GetField(opb, 8, known, c.book, subs, more);
    }
    if book < 0 || book >= books {
      return None;
    }
    var csub := Pow2(bits);
    if known {
      CodesBelow(c);
    }
    var ok, codes := GetList(opb, [], csub, 8, known, if known then SubCodes(c) else [], later, more);
    if !ok {
      return None;
    }
    var subbook;
    ok, subbook := SubBooks(codes, books, known, c);
    if !ok {
      return None;
    }
    assert codes[0..] == codes;
    ClassReads(start, dim - 1, bits, book, codes, subbook, csub * 8);
    result := Some(PartClass(dim, bits, book, subbook));
  }

  lemma CodesBelow(c: PartClass)
    requires SubsFit(c)
    ensures Below(SubCodes(c), Pow2(8))
  {
    hide Pow2;
    FieldPowers();
  }

  method UnpackClasses(n: nat, books: nat, opb: OggPackBuffer, ghost known: bool, ghost classes: seq<PartClass>,
                       ghost later: seq<Field>, ghost more: seq<bool>)
      returns (ok: bool, got: seq<PartClass>)
    requires opb.Valid() && 0 < books <= 256
    requires known ==>
      && |classes| == n && ClassesOk(classes, books) && (forall k :: 0 <= k < n ==> SubsFit(classes[k]))
      && Next(opb, AllClassFields(classes, books, 0, later), more)
    modifies opb
    ensures opb.Valid() && opb.bits == old(opb.bits) && (ok ==> |got| == n && ClassesOk(got, books))
    ensures ok ==> Chain(ClassAt, old(opb.Rest()), got, opb.Rest())
    ensures known ==>
      ok && got == seq(|classes|, k requires 0 <= k < |classes| => PlainClass(classes[k])) && Next(opb, later, more)
  {
    hide Row, Pow2, Next, ClassFields, SubsFit, PlainClass, PartClass.Valid, ClassAt, Chain, OggPackBuffer.Rest;
    ghost var start := opb.Rest();
    ChainEnds(ClassAt, start);
    got := [];
    for j := 0 to n
      invariant opb.Valid() && opb.bits == old(opb.bits) && |got| == j && ClassesOk(got, books)
      invariant Chain(ClassAt, start, got, opb.Rest())
      invariant known ==> forall k :: 0 <= k < j ==> got[k] == PlainClass(classes[k])
      invariant known ==> Next(opb, AllClassFields(classes, books, j, later), more)
    {
      if known {
        assert classes[j].Valid(books);
      }
      ghost var mid := opb.Rest();
      var c := UnpackClass(books, opb, known, if known then classes[j] else PartClass(1, 0, 0, []),
                           if known then AllClassFields(classes, books, j + 1, later) else [], more);
      if c == None {
        return false, [];
      }
      ChainMore(ClassAt, start, got, c.value, mid, opb.Rest());
      got := got + [c.value];
    }
    ok := true;
  }

  ghost predicate Apart(list: seq<nat>)
  {
    forall i, j :: 0 <= i < j < |list| ==> list[i] != list[j]
  }

  /** In sorted order, equal neighbours are the only equals. */
  lemma {:induction false} Climbs(list: seq<nat>, order: seq<nat>, p: nat, q: nat)
    requires InOrder(list, order, |order|) && p < q < |order|
    requires forall b :: 1 <= b < |order| ==> list[order[b - 1]] != list[order[b]]
    ensures list[order[p]] < list[order[q]]
    decreases q
  {
    assert list[order[q - 1]] <= list[order[q]] && list[order[q - 1]] != list[order[q]];
    if p < q - 1 {
      Climbs(list, order, p, q - 1);
    }
  }

  /** Sort the posts and compare neighbours: no position may come up twice. */
  method CheckApart(list: seq<nat>) returns (ok: bool)
    ensures ok <==> Apart(list)
  {
    hide InOrder, Permutes;
    var codes := new nat[|list|](i requires 0 <= i < |list| => list[i]);
    assert codes[..] == list;
    var order, place := SortPointers(codes);
    OrderInside(list, order[..], place);
    var j := 1;
    while j < order.Length
      invariant 1 <= j && (order.Length > 0 ==> j <= order.Length)
      invariant forall b :: 1 <= b < j && b < order.Length ==> list[order[b - 1]] != list[order[b]]
    {
      if list[order[j - 1]] == list[order[j]] {
        NotApart(list, order[..], place, j);
        return false;
      }
      j := j + 1;
    }
    SoApart(list, order[..], place);
    ok := true;
  }

  lemma OrderInside(list: seq<nat>, order: seq<nat>, place: seq<nat>)
    requires Permutes(order, place) && |order| == |list|
    ensures forall a :: 0 <= a < |order| ==> order[a] < |list|
  {
  }

  lemma NotApart(list: seq<nat>, order: seq<nat>, place: seq<nat>, j: nat)
    requires Permutes(order, place) && |order| == |list| && 1 <= j < |order| && order[j - 1] < |list|
    requires order[j] < |list|
    requires list[order[j - 1]] == list[order[j]]
    ensures !Apart(list)
  {
    assert place[order[j - 1]] != place[order[j]];
  }

  lemma SoApart(list: seq<nat>, order: seq<nat>, place: seq<nat>)
    requires Permutes(order, place) && InOrder(list, order, |order|) && |order| == |list|
    requires forall b :: 1 <= b < |order| ==> list[order[b - 1]] != list[order[b]]
    ensures Apart(list)
  {
    forall i, j | 0 <= i < j < |list|
      ensures list[i] != list[j]
    {
      if place[i] < place[j] {
        Climbs(list, order, place[i], place[j]);
      } else {
        assert order[place[i]] != order[place[j]];
        Climbs(list, order, place[j], place[i]);
      }
    }
  }

  /** The multiplier and the posts, partition by partition, between 0 and the power of two above them all. */
  method UnpackPosts(info: FloorInfo, books: nat, opb: OggPackBuffer, ghost known: bool, ghost f: Floor,
                     ghost later: seq<Field>, ghost more: seq<bool>)
      returns (result: Option<Floor>)
    requires opb.Valid() && info.Valid(books)
    requires known ==> f.Valid(books) && info == Plain(f).info && Next(opb, PostFields(f, later), more)
    modifies opb
    ensures opb.Valid() && opb.bits == old(opb.bits)
    ensures result.Some? ==>
      && var g := result.value;
      && g.info == info && 1 <= g.mult <= 4 && ValidPosts(g.postlist) && |g.postlist| == 2 + info.Values(0)
      && g.RangeBits() <= 15 && g.postlist[1] == Pow2(g.RangeBits())
      && exists width: nat :: PostsAt(old(opb.Rest()), g.mult, g.postlist, width, opb.Rest())
    ensures known ==> result == Some(Plain(f)) && Next(opb, later, more)
  {
    hide Row, Pow2, Next, PartClass.Valid, ValidPosts, MaxClass, ClassesOk, PlainClass, Apart, PostsAt;
    hide OggPackBuffer.Rest, Floor.Valid, Plain, FloorInfo.Values, Floor.RangeBits, ListFields;
    FieldPowers();
    ghost var start := opb.Rest();
    if known {
      PostsBelow(f, books);
      PostsKnown(f, books, later);
    }
    var ok, mult, rangebits, list := ReadRange(info, opb, known, if known then f.mult else 1,
                                               if known then f.RangeBits() else 0,
                                               if known then f.postlist[2..] else [], later, more);
    if !ok {
      return None;
    }
    var postlist: seq<nat> := [0, Pow2(rangebits)] + list;
    ok := CheckApart(postlist);
    RangeIs(info, mult, list, rangebits);
    ValidIsApart(postlist, rangebits);
    if !ok {
      return None;
    }
    result := Some(Floor(info, mult, postlist));
    assert PostsAt(start, result.value.mult, result.value.postlist, rangebits, opb.Rest());
  }

  /** What a known floor says of its posts. */
  lemma PostsKnown(f: Floor, books: nat, later: seq<Field>)
    requires f.Valid(books)
    ensures 1 <= f.mult <= 4 && |f.postlist| >= 2 && ValidPosts(f.postlist)
    ensures PostFields(f, later)
         == [Field(f.mult - 1, 2)] + ([Field(f.RangeBits(), 4)] + ListFields(f.postlist[2..], f.RangeBits(), 0, later))
    ensures forall i :: 0 <= i < |Plain(f).info.partitionclass| ==>
      Plain(f).info.partitionclass[i] < |Plain(f).info.classes|
    ensures Plain(f).info.Values(0) == f.info.Values(0)
    ensures Floor(Plain(f).info, f.mult, f.postlist) == Plain(f)
  {
    hide Pow2, ValidPosts, PartClass.Valid, FloorInfo.Values, ListFields;
    SameValues(f, 0);
  }

  lemma RangeIs(info: FloorInfo, mult: nat, list: seq<nat>, rangebits: nat)
    ensures var f := Floor(info, mult, [0, Pow2(rangebits)] + list);
      f.RangeBits() == rangebits && f.postlist[1] == Pow2(rangebits) && f.postlist[2..] == list
  {
    hide ILog, Pow2;
    LogOfPower(rangebits);
  }

  /** The numbers themselves. */
  method ReadRange(info: FloorInfo, opb: OggPackBuffer, ghost known: bool, ghost m: nat, ghost range: nat,
                   ghost posts: seq<nat>, ghost later: seq<Field>, ghost more: seq<bool>)
      returns (ok: bool, mult: nat, rangebits: nat, list: seq<nat>)
    requires opb.Valid() && forall i :: 0 <= i < |info.partitionclass| ==> info.partitionclass[i] < |info.classes|
    requires known ==>
      && 1 <= m <= 4 && range < 16 && |posts| == info.Values(0) && Below(posts, Pow2(range))
      && Next(opb, [Field(m - 1, 2)] + ([Field(range, 4)] + ListFields(posts, range, 0, later)), more)
    modifies opb
    ensures opb.Valid() && opb.bits == old(opb.bits)
    ensures ok ==>
      && 1 <= mult <= 4 && rangebits < 16 && |list| == info.Values(0) && Below(list, Pow2(rangebits))
      && PostsAt(old(opb.Rest()), mult, [0, Pow2(rangebits)] + list, rangebits, opb.Rest())
    ensures known ==> ok && mult == m && rangebits == range && list == posts && Next(opb, later, more)
  {
    hide Row, Pow2, Next, Stands, ListStands, OggPackBuffer.Rest, PostsAt;
    FieldPowers();
    ghost var start := opb.Rest();
    ghost var rest := ListFields(posts, range, 0, later);
    mult, rangebits, list := 1, 0, [];
    var v := GetField(opb, 2, known, if known then m - 1 else 0, [Field(range, 4)] + rest, more);
    var width := GetField(opb, 4, known, range, rest, more);
    if width < 0 {
      return false, mult, rangebits, list;
    }
    mult, rangebits := v + 1, width;
    ok, list := ReadPosts(info, rangebits, opb, known, posts, later, more);
    if ok {
      PostsRead(start, v, width, list, |list| * width);
    }
  }

  lemma PostsNeedBits(bits: seq<bool>, mult: nat, postlist: seq<nat>, width: nat, rest: seq<bool>)
    requires PostsAt(bits, mult, postlist, width, rest)
    ensures bits != []
  {
  }

  lemma PostsRead(bits: seq<bool>, mult: nat, width: nat, list: seq<nat>, at: nat)
    requires Stands(bits, 0, 2, mult) && 2 <= |bits| && Stands(bits[2..], 0, 4, width) && 4 <= |bits[2..]|
    requires var r := bits[2..][4..]; ListStands(r, 0, width, list) && at == |list| * width && at <= |r|
    ensures PostsAt(bits, mult + 1, [0, Pow2(width)] + list, width, bits[2..][4..][at..])
  {
    hide Stands, ListStands, Pow2;
    NextStands(bits, 2, 4, width);
    assert ([0, Pow2(width)] + list)[2..] == list;
  }

  method ReadPosts(info: FloorInfo, rangebits: nat, opb: OggPackBuffer, ghost known: bool, ghost posts: seq<nat>,
                   ghost later: seq<Field>,
                   ghost more: seq<bool>) returns (ok: bool, list: seq<nat>)
    requires opb.Valid() && forall i :: 0 <= i < |info.partitionclass| ==> info.partitionclass[i] < |info.classes|
    requires known ==>
      |posts| == info.Values(0) && Below(posts, Pow2(rangebits))
      && Next(opb, ListFields(posts, rangebits, 0, later), more)
    modifies opb
    ensures opb.Valid() && opb.bits == old(opb.bits)
    ensures (ok ==> |list| == info.Values(0) && Below(list, Pow2(rangebits)))
    ensures ok ==>
      ListStands(old(opb.Rest()), 0, rangebits, list) && |list| * rangebits <= |old(opb.Rest())|
      && opb.Rest() == old(opb.Rest())[|list| * rangebits..]
    ensures known ==> ok && list == posts && Next(opb, later, more)
  {
    hide Row, Pow2, Next, ListStands, OggPackBuffer.Rest;
    ghost var bits := opb.Rest();
    NoneStands(bits, rangebits);
    var count: nat := 0;
    list := [];
    for j := 0 to |info.partitionclass|
      invariant opb.Valid() && opb.bits == old(opb.bits) && |list| == count && count + info.Values(j) == info.Values(0)
      invariant Below(list, Pow2(rangebits)) && ListStands(bits, 0, rangebits, list)
      invariant count * rangebits <= |bits| && opb.Rest() == bits[count * rangebits..]
      invariant known ==> list == posts[..count] && Next(opb, ListFields(posts, rangebits, count, later), more)
    {
      count := count + info.Class(j).dim;
      ghost var before, rest := list, opb.Rest();
      ok, list := GetList(opb, list, count, rangebits, known, posts, later, more);
      if !ok {
        return false, list;
      }
      ListsJoin(bits, rangebits, before, list, rest);
    }
    ok := true;
  }

  lemma PostsBelow(f: Floor, books: nat)
    requires f.Valid(books)
    ensures |f.postlist| >= 2 && f.postlist == [0, Pow2(f.RangeBits())] + f.postlist[2..] && f.RangeBits() < 16
    ensures Below(f.postlist[2..], Pow2(f.RangeBits())) && |f.postlist[2..]| == f.info.Values(0)
  {
    hide Pow2;
  }

  lemma {:induction false} SameValues(f: Floor, j: nat)
    requires (forall i :: 0 <= i < |f.info.partitionclass| ==> f.info.partitionclass[i] < |f.info.classes|)
    requires j <= |f.info.partitionclass|
    ensures Plain(f).info.Values(j) == f.info.Values(j)
    decreases |f.info.partitionclass| - j
  {
    if j < |f.info.partitionclass| {
      SameValues(f, j + 1);
    }
  }

  /** Posts below the last position are what the floor coder needs exactly when no two are equal. */
  lemma ValidIsApart(postlist: seq<nat>, rangebits: nat)
    requires |postlist| >= 2 && postlist[0] == 0 && postlist[1] == Pow2(rangebits)
    requires Below(postlist[2..], Pow2(rangebits))
    ensures ValidPosts(postlist) <==> Apart(postlist)
    ensures ILog(postlist[1] - 1) == rangebits
  {
    hide Pow2, ILog;
    var list := postlist[2..];
    assert forall i :: 2 <= i < |postlist| ==> postlist[i] == list[i - 2];
    if Apart(postlist) {
      assert forall i :: 1 <= i < |postlist| ==> postlist[0] != postlist[i];
    }
    LogOfPower(rangebits);
  }

  lemma NoBits()
    ensures ILog(0) == 0 && Pow2(0) == 1
  {
  }

  lemma {:induction false} LogOfPower(n: nat)
    ensures ILog(Pow2(n) - 1) == n
  {
    hide ILog, Pow2;
    var k := ILog(Pow2(n) - 1);
    NoBits();
    if n > 0 {
      TwiceHalf(n);
    }
    if k < n {
      Pow2Monotone(k, n - 1);
    } else if k > n {
      Pow2Monotone(n, k - 1);
    }
  }

  /** Read a floor. An accepted floor is one the floor coder can use, whatever the packet holds; what was
      written comes back, but for books that no class uses. */
  method Unpack(books: nat, opb: OggPackBuffer, ghost known: bool, ghost f: Floor, ghost later: seq<Field>,
                ghost more: seq<bool>)
      returns (result: Option<Floor>)
    requires opb.Valid() && 0 < books <= 256
    requires known ==> f.Valid(books) && Spellable(f) && Next(opb, FloorFields(f, books, later), more)
    modifies opb
    ensures opb.Valid() && opb.bits == old(opb.bits) && (result.Some? ==> result.value.Valid(books))
    ensures result.Some? ==> Laid(old(opb.Rest()), result.value, opb.Rest())
    ensures known ==> result == Some(Plain(f)) && Next(opb, later, more)
  {
    hide Row, Pow2, Next, PartClass.Valid, ValidPosts, SubsFit, PlainClass, ClassFields, Stands, ListStands, Chain;
    hide OggPackBuffer.Rest, PostsAt;
    FieldPowers();
    ghost var start := opb.Rest();
    ghost var posts := if known then PostFields(f, later) else [];
    ghost var classes := if known then AllClassFields(f.info.classes, books, 0, posts) else [];
    ghost var list := if known then f.info.partitionclass else [];
    var partitions := GetField(opb, 5, known, |list|, ListFields(list, 4, 0, classes), more);
    var ok, partitionclass := GetList(opb, [], if partitions < 0 then 0 else partitions, 4, known, list, classes, more);
    if !ok {
      return None;
    }
    assert known ==> partitionclass == list;
    assert partitionclass[0..] == partitionclass;
    var got;
    ok, got := UnpackClasses(MaxClass(partitionclass) + 1, books, opb, known, if known then f.info.classes else [],
                             posts, more);
    if !ok {
      return None;
    }
    ghost var mid := opb.Rest();
    ChainEnds(ClassAt, if partitions < 0 then [] else start[5..][|partitionclass| * 4..]);
    result := UnpackPosts(FloorInfo(partitionclass, got), books, opb, known, f, later, more);
    if result.Some? {
      ghost var width: nat :| PostsAt(mid, result.value.mult, result.value.postlist, width, opb.Rest());
      PostsNeedBits(mid, result.value.mult, result.value.postlist, width, opb.Rest());
      assert LaidAt(start, result.value, mid, width, opb.Rest());
    }
  }

  // ---------------------------------------------------------------------------------------------
  // The size of the tables
  // ---------------------------------------------------------------------------------------------

  /** The tables of the floor coder have room for this many posts between the two ends. */
  const POSITS: nat := 63

  /** The posts fit the tables. */
  predicate FitsTables(f: Floor)
  {
    |f.postlist| <= POSITS + 2
  }

  lemma {:induction false} ValuesBound(info: FloorInfo, books: nat, i: nat)
    requires info.Valid(books) && i <= |info.partitionclass|
    ensures info.Values(i) <= 8 * (|info.partitionclass| - i)
    decreases |info.partitionclass| - i
  {
    if i < |info.partitionclass| {
      ValuesBound(info, books, i + 1);
      assert info.Class(i).Valid(books);
    }
  }

  function Upto(m: nat): (r: set<nat>)
    ensures |r| == m && forall x: nat :: x in r <==> x < m
  {
    if m == 0 then {} else Upto(m - 1) + {m - 1}
  }

  /** Different numbers of a set are no more than it has. */
  lemma {:induction false} DifferentBelow(list: seq<nat>, within: set<nat>)
    requires (forall i :: 0 <= i < |list| ==> list[i] in within)
    requires forall i, j :: 0 <= i < j < |list| ==> list[i] != list[j]
    ensures |list| <= |within|
  {
    if list != [] {
      var n := |list| - 1;
      forall i | 0 <= i < n
        ensures list[i] in within - {list[n]}
      {
        assert list[i] != list[n];
      }
      DifferentBelow(list[..n], within - {list[n]});
    }
  }

  lemma FewBelow(list: seq<nat>, m: nat)
    requires (forall i :: 0 <= i < |list| ==> list[i] < m)
    requires forall i, j :: 0 <= i < j < |list| ==> list[i] != list[j]
    ensures |list| <= m
  {
    DifferentBelow(list, Upto(m));
  }

  /** An accepted floor fits the tables exactly if its partitions have no more values than that, which the reader
      does not check. Few partitions, or a short range, make sure of it. */
  lemma FitsExactly(f: Floor, books: nat)
    requires f.Valid(books)
    ensures FitsTables(f) <==> f.info.Values(0) <= POSITS
    ensures |f.info.partitionclass| <= 7 || f.RangeBits() <= 6 ==> FitsTables(f)
    ensures |f.postlist| <= 250
  {
    hide PartClass.Valid, MaxClass, FloorInfo.Values;
    ValuesBound(f.info, books, 0);
    if f.RangeBits() <= 6 {
      Pow2Monotone(f.RangeBits(), 6);
      assert Pow2(6) == 64;
      FewBelow(f.postlist, Pow2(f.RangeBits()) + 1);
    }
  }

  /** As many partitions as there can be, each of the largest class. */
  const WIDE: Floor := Floor(FloorInfo(seq(31, i => 0), [PartClass(8, 0, 0, [-1])]), 1,
                             [0, 256] + seq(248, i requires 0 <= i < 248 => i + 1))

  /** The reader accepts it, and it has 250 posts. */
  lemma WideOverruns()
    ensures WIDE.Valid(1) && |WIDE.postlist| == 250 && !FitsTables(WIDE)
  {
    hide Pow2, ILog;
    var list := WIDE.info.partitionclass;
    WidePosts();
    WideRange();
    WideClasses(list);
    WideValues(0);
  }

  lemma WidePosts()
    ensures ValidPosts(WIDE.postlist)
  {
  }

  lemma WideRange()
    ensures WIDE.RangeBits() == 8 && WIDE.postlist[1] == Pow2(8) && PartClass(8, 0, 0, [-1]).Valid(1)
  {
    assert Pow2(8) == 256 && Pow2(7) == 128 && Pow2(0) == 1;
    LogIs(255, 8);
  }

  lemma LogIs(v: nat, n: nat)
    requires n > 0 && Pow2(n - 1) <= v < Pow2(n)
    ensures ILog(v) == n
  {
    hide Pow2, ILog;
    var k := ILog(v);
    if k < n {
      Pow2Monotone(k, n - 1);
    } else if n < k {
      Pow2Monotone(n, k - 1);
    }
  }

  lemma {:induction false} WideClasses(list: seq<nat>)
    requires list != [] && forall i :: 0 <= i < |list| ==> list[i] == 0
    ensures MaxClass(list) == 0
  {
    if |list| > 1 {
      WideClasses(list[..|list| - 1]);
    } else {
      assert list[..0] == [];
    }
  }

  lemma {:induction false} WideValues(i: nat)
    requires i <= 31
    ensures WIDE.info.Values(i) == 8 * (31 - i)
    decreases 31 - i
  {
    if i < 31 {
      WideValues(i + 1);
    }
  }
}
