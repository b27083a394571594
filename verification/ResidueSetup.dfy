/** A residue in the setup header: its range, its phrase book, and which books serve which class in which
    stage (section 8.6.1 of the Vorbis I specification). */
module ResidueSetup {
  import opened Wrappers
  import opened BitMath
  import opened BitBuffer
  import opened Fields
  import opened Lattice
  import StaticBook

  datatype Info = Info(begin: nat, end: nat, grouping: nat, partitions: nat, groupbook: nat, secondstages: seq<nat>,
                       booklist: seq<nat>, partvals: nat)
  {
    /** What the reader makes sure of. */
    ghost predicate Valid(books: seq<StaticBook.Book>)
    {
      && begin < 0x100_0000 && end < 0x100_0000 && 1 <= grouping <= 0x100_0000 && 1 <= partitions <= 64
      && |secondstages| == partitions && Below(secondstages, 256) && |booklist| == Listed(secondstages)
      && groupbook < |books| && (forall k :: 0 <= k < |booklist| ==> Codes(books, booklist[k]))
      && books[groupbook].dim >= 1
      && partvals == Power(partitions, books[groupbook].dim) <= |books[groupbook].lengthlist|
    }
  }

  /** A book that has values. */
  ghost predicate Codes(books: seq<StaticBook.Book>, b: nat)
  {
    b < |books| && books[b].mapping.Mapping?
  }

  /** The number of ones. */
  ghost function Ones(v: nat): nat
  {
    if v == 0 then 0 else v % 2 + Ones(v / 2)
  }

  /** How many stages the first classes have, all told. */
  ghost function Listed(secondstages: seq<nat>): nat
  {
    if secondstages == [] then 0
    else Listed(secondstages[..|secondstages| - 1]) + Ones(secondstages[|secondstages| - 1])
  }

  method ICount(x: nat) returns (ret: nat)
    ensures ret == Ones(x)
  {
    var v: nat := x;
    ret := 0;
    while v > 0
      invariant ret + Ones(v) == Ones(x)
    {
      ret := ret + v % 2;
      v := v / 2;
    }
  }

  /** The stages of a class: three bits, then a mark that five more follow, and those. */
  ghost function CascadeFields(s: nat, later: seq<Field>): seq<Field>
  {
    [Field(s % 8, 3)] + ([Field(if s >= 8 then 1 else 0, 1)] + HighFields(s, later))
  }

  ghost function HighFields(s: nat, later: seq<Field>): seq<Field>
  {
    if s >= 8 then [Field(s / 8, 5)] + later else later
  }

  ghost function CascadesFields(secondstages: seq<nat>, i: nat, later: seq<Field>): seq<Field>
    decreases |secondstages| - i
  {
    if i >= |secondstages| then later else CascadeFields(secondstages[i], CascadesFields(secondstages, i + 1, later))
  }

  ghost function InfoFields(r: Info, later: seq<Field>): seq<Field>
  {
    [Field(r.begin, 24)] + ([Field(r.end, 24)] + ([Field(if r.grouping > 0 then r.grouping - 1 else 0, 24)]
      + ([Field(if r.partitions > 0 then r.partitions - 1 else 0, 6)]
         + ([Field(r.groupbook, 8)] + StageFields(r, later)))))
  }

  ghost function StageFields(r: Info, later: seq<Field>): seq<Field>
  {
    CascadesFields(r.secondstages, 0, ListFields(r.booklist, 8, 0, later))
  }

  // ---------------------------------------------------------------------------------------------
  // Where a packet has each number
  // ---------------------------------------------------------------------------------------------

  /** The stages of a class: the first three, a bit whether there are more, and the other five. */
  ghost predicate CascadeAt(bits: seq<bool>, c: nat, rest: seq<bool>)
  {
    && |bits| >= 4 && Stands(bits, 0, 3, c % 8)
    && if bits[3] then Stands(bits, 4, 5, c / 8) && 9 <= |bits| && rest == bits[9..] else c < 8 && rest == bits[4..]
  }

  /** The books follow the stages, eight bits each. */
  ghost predicate StagesAt(bits: seq<bool>, secondstages: seq<nat>, booklist: seq<nat>, mid: seq<bool>, rest: seq<bool>)
  {
    && Chain<nat>(CascadeAt, bits, secondstages, mid) && ListStands(mid, 0, 8, booklist) && |booklist| * 8 <= |mid|
    && rest == mid[|booklist| * 8..]
  }

  /** A packet that is read as the residue `r` has its numbers in these places, and then `rest`. */
  ghost predicate Laid(bits: seq<bool>, r: Info, rest: seq<bool>)
  {
    && Stands(bits, 0, 24, r.begin) && Stands(bits, 24, 24, r.end) && Stands(bits, 48, 24, r.grouping - 1)
    && Stands(bits, 72, 6, r.partitions - 1) && Stands(bits, 78, 8, r.groupbook) && 86 <= |bits|
    && exists mid :: StagesAt(bits[86..], r.secondstages, r.booklist, mid, rest)
  }

  /** Five numbers, one after the other. */
  lemma Heads(bits: seq<bool>, a: int, b: int, c: int, d: int, e: int)
    requires Stands(bits, 0, 24, a) && 24 <= |bits| && Stands(bits[24..], 0, 24, b)
    requires 24 <= |bits[24..]| && Stands(bits[24..][24..], 0, 24, c) && 24 <= |bits[24..][24..]|
    requires var r := bits[24..][24..][24..]; Stands(r, 0, 6, d) && 6 <= |r| && Stands(r[6..], 0, 8, e)
    ensures Stands(bits, 24, 24, b) && Stands(bits, 48, 24, c) && Stands(bits, 72, 6, d) && Stands(bits, 78, 8, e)
    ensures 86 <= |bits| && bits[24..][24..][24..][6..][8..] == bits[86..]
  {
    hide Stands;
    NextStands(bits, 24, 24, b);
    NextStands(bits, 48, 24, c);
    NextStands(bits, 72, 6, d);
    NextStands(bits, 78, 8, e);
  }

  /** One cascade, number after number. */
  lemma CascadeReads(bits: seq<bool>, low: nat, mark: int, high: int)
    requires Stands(bits, 0, 3, low) && low < 8 && 3 <= |bits| && Stands(bits[3..], 0, 1, mark)
    ensures |bits| >= 4 && (mark == if bits[3] then 1 else 0)
    ensures mark == 0 ==> CascadeAt(bits, low, bits[3..][1..])
    ensures mark == 1 && high >= 0 && Stands(bits[3..][1..], 0, 5, high) ==>
      5 <= |bits[3..][1..]| && CascadeAt(bits, low + 8 * high, bits[3..][1..][5..])
  {
    NextStands(bits, 3, 1, mark);
    assert bits[3..4] == [bits[3]];
    assert FromBits([bits[3]][1..]) == 0;
    if mark == 1 && high >= 0 && Stands(bits[3..][1..], 0, 5, high) {
      NextStands(bits, 4, 5, high);
    }
  }

  // ---------------------------------------------------------------------------------------------
  // Writing
  // ---------------------------------------------------------------------------------------------

  lemma ThreeBits(s: nat)
    ensures ToBits(s, 3) == [s % 2 == 1, s / 2 % 2 == 1, s / 2 / 2 % 2 == 1]
    ensures ToBits(s, 4) == ToBits(s, 3) + [s / 2 / 2 / 2 % 2 == 1]
  {
    OneBit(s / 2 / 2 / 2);
    OneBit(s / 2 / 2);
    assert ToBits(s / 2 / 2, 2) == [s / 2 / 2 % 2 == 1] + ToBits(s / 2 / 2 / 2, 1);
    assert ToBits(s / 2, 2) == [s / 2 % 2 == 1] + ToBits(s / 2 / 2, 1);
    assert ToBits(s / 2, 3) == [s / 2 % 2 == 1] + ToBits(s / 2 / 2, 2);
    assert ToBits(s, 3) == [s % 2 == 1] + ToBits(s / 2, 2);
    assert ToBits(s, 4) == [s % 2 == 1] + ToBits(s / 2, 3);
  }

  lemma OneBit(v: nat)
    ensures ToBits(v, 1) == [v % 2 == 1]
  {
    assert ToBits(v / 2, 0) == [];
  }

  /** Stages below 8 are written as four bits: the mark is the fourth. */
  lemma ShortForm(s: nat, later: seq<Field>)
    requires s < 8
    ensures Row([Field(s, 4)] + later) == Row(CascadeFields(s, later))
  {
    hide Row, ToBits;
    RowFirst(s, 4, later);
    RowFirst(s, 3, [Field(0, 1)] + later);
    RowFirst(0, 1, later);
    ThreeBits(s);
    OneBit(0);
    assert (ToBits(s, 3) + ToBits(0, 1)) + Row(later) == ToBits(s, 3) + (ToBits(0, 1) + Row(later));
  }

  /** Of the others, three bits keep the low three. */
  lemma LowThree(s: nat, later: seq<Field>)
    ensures Row([Field(s, 3)] + later) == Row([Field(s % 8, 3)] + later)
  {
    hide Row, ToBits;
    RowFirst(s, 3, later);
    RowFirst(s % 8, 3, later);
    ThreeBits(s);
    ThreeBits(s % 8);
    SameLow(s / 8, s % 8);
  }

  lemma SameLow(q: nat, r: nat)
    requires r < 8
    ensures var s := 8 * q + r; s % 2 == r % 2 && s / 2 % 2 == r / 2 % 2 && s / 2 / 2 % 2 == r / 2 / 2 % 2
  {
    var s := 8 * q + r;
    assert s / 2 == 4 * q + r / 2;
    assert s / 2 / 2 == 2 * q + r / 2 / 2;
  }

  lemma LogAboveThree(s: nat)
    ensures ILog(s) > 3 <==> s >= 8
  {
    assert Pow2(3) == 8;
    if ILog(s) > 3 {
      Pow2Monotone(3, ILog(s) - 1);
    } else {
      Pow2Monotone(ILog(s), 3);
    }
  }

  method PackCascade(s: nat, opb: OggPackBuffer, ghost later: seq<Field>, ghost all: seq<bool>)
    requires opb.bits + Row(CascadeFields(s, later)) == all
    modifies opb
    ensures opb.pos == old(opb.pos) && opb.bits + Row(later) == all
  {
    hide Row, ILog;
    LogAboveThree(s);
    if ILog(s) > 3 {
      ghost var rest := [Field(1, 1)] + ([Field(s / 8, 5)] + later);
      LowThree(s, rest);
      PutField(opb, s, 3, rest, all);
      PutField(opb, 1, 1, [Field(s / 8, 5)] + later, all);
      PutField(opb, s / 8, 5, later, all);
    } else {
      ShortForm(s, later);
      PutField(opb, s, 4, later, all);
    }
  }

  /** Write a residue. */
  method Pack(r: Info, opb: OggPackBuffer, ghost books: seq<StaticBook.Book>, ghost later: seq<Field>,
              ghost all: seq<bool>)
    requires r.Valid(books) && opb.bits + Row(InfoFields(r, later)) == all
    modifies opb
    ensures opb.pos == old(opb.pos) && opb.bits + Row(later) == all
  {
    hide Row, CascadeFields, Power, Codes, Listed;
    ghost var e := StageFields(r, later);
    ghost var d := [Field(r.groupbook, 8)] + e;
    ghost var c := [Field(r.partitions - 1, 6)] + d;
    ghost var b := [Field(r.grouping - 1, 24)] + c;
    PutField(opb, r.begin, 24, [Field(r.end, 24)] + b, all);
    PutField(opb, r.end, 24, b, all);
    PutField(opb, r.grouping - 1, 24, c, all);
    PutField(opb, r.partitions - 1, 6, d, all);
    PutField(opb, r.groupbook, 8, e, all);
    ghost var list := ListFields(r.booklist, 8, 0, later);
    var acc := 0;
    ListedNone();
    assert r.secondstages[..0] == [];
    for j := 0 to r.partitions
      invariant opb.pos == old(opb.pos) && opb.bits + Row(CascadesFields(r.secondstages, j, list)) == all
      invariant acc == Listed(r.secondstages[..j])
    {
      PackCascade(r.secondstages[j], opb, CascadesFields(r.secondstages, j + 1, list), all);
      var n := ICount(r.secondstages[j]);
      ListedNext(r.secondstages, j);
      acc := acc + n;
    }
    assert r.secondstages[..r.partitions] == r.secondstages;
    PutList(opb, r.booklist, 8, 0, acc, later, all);
  }

  lemma ListedNext(secondstages: seq<nat>, j: nat)
    requires j < |secondstages|
    ensures Listed(secondstages[..j + 1]) == Listed(secondstages[..j]) + Ones(secondstages[j])
  {
    assert secondstages[..j + 1][..j] == secondstages[..j];
  }

  // ---------------------------------------------------------------------------------------------
  // Reading
  // ---------------------------------------------------------------------------------------------

  method UnpackCascade(opb: OggPackBuffer, ghost known: bool, ghost s: nat, ghost later: seq<Field>,
                       ghost more: seq<bool>)
      returns (cascade: int)
    requires opb.Valid() && (known ==> s < 256 && Next(opb, CascadeFields(s, later), more))
    modifies opb
    ensures opb.Valid() && opb.bits == old(opb.bits) && -1 <= cascade < 256
    ensures cascade >= 0 ==> CascadeAt(old(opb.Rest()), cascade, opb.Rest())
    ensures known ==> cascade == s && Next(opb, later, more)
  {
    hide Row, Next, Pow2, Stands, OggPackBuffer.Rest, CascadeAt;
    FieldPowers();
    ghost var bits := opb.Rest();
    ghost var high := HighFields(s, later);
    cascade := GetField(opb, 3, known, s % 8, [Field(if s >= 8 then 1 else 0, 1)] + high, more);
    var cflag := GetField(opb, 1, known, if s >= 8 then 1 else 0, high, more);
    if cflag < 0 {
      return -1;
    }
    CascadeReads(bits, cascade, cflag, -1);
    if cflag > 0 {
      var c := GetField(opb, 5, known, if known then s / 8 else 0, later, more);
      if c < 0 {
        return -1;
      }
      CascadeReads(bits, cascade, cflag, c);
      cascade := cascade + 8 * c;
    }
  }

  /** The stages of every class, and how many books they need. */
  method UnpackCascades(n: nat, opb: OggPackBuffer, ghost known: bool, ghost list: seq<nat>, ghost later: seq<Field>,
                        ghost more: seq<bool>)
      returns (ok: bool, secondstages: seq<nat>, acc: nat)
    requires opb.Valid()
    requires (known ==> |list| == n && Below(list, 256) && Next(opb, CascadesFields(list, 0, later), more))
    modifies opb
    ensures opb.Valid() && opb.bits == old(opb.bits)
    ensures ok ==> |secondstages| == n && Below(secondstages, 256) && acc == Listed(secondstages)
    ensures ok ==> Chain<nat>(CascadeAt, old(opb.Rest()), secondstages, opb.Rest())
    ensures known ==> ok && secondstages == list && Next(opb, later, more)
  {
    hide Row, Next, CascadeFields, Listed, CascadeAt, Chain, OggPackBuffer.Rest;
    ghost var bits := opb.Rest();
    ChainEnds<nat>(CascadeAt, bits);
    secondstages, acc := [], 0;
    ListedNone();
    for j := 0 to n
      invariant opb.Valid() && opb.bits == old(opb.bits) && |secondstages| == j && Below(secondstages, 256)
      invariant acc == Listed(secondstages) && Chain<nat>(CascadeAt, bits, secondstages, opb.Rest())
      invariant known ==> secondstages == list[..j] && Next(opb, CascadesFields(list, j, later), more)
    {
      ghost var mid := opb.Rest();
      var cascade := UnpackCascade(opb, known, if known then list[j] else 0,
                                   if known then CascadesFields(list, j + 1, later) else [], more);
      if cascade < 0 {
        return false, [], 0;
      }
      var count := ICount(cascade);
      ListedNext(secondstages + [cascade], j);
      assert (secondstages + [cascade])[..j] == secondstages;
      assert (secondstages + [cascade])[..j + 1] == secondstages + [cascade];
      ChainMore<nat>(CascadeAt, bits, secondstages, cascade, mid, opb.Rest());
      secondstages, acc := secondstages + [cascade], acc + count;
    }
    ok := true;
  }

  lemma ListedNone()
    ensures Listed([]) == 0
  {
  }

  /** Partition words of `dim` classes must be entries of the phrase book: stop as soon as they outgrow it. */
  method CheckPhrases(partitions: nat, dim: nat, entries: nat) returns (ok: bool, partvals: nat)
    requires partitions >= 1
    ensures ok <==> Power(partitions, dim) <= entries || dim == 0
    ensures ok ==> partvals == Power(partitions, dim)
  {
    hide Power;
    partvals := 1;
    var left := dim;
    PowerStep(partitions, 0);
    while left > 0
      invariant 0 <= left <= dim && partvals == Power(partitions, dim - left) && (left < dim ==> partvals <= entries)
    {
      PowerStep(partitions, dim - left);
      partvals := partvals * partitions;
      if partvals > entries {
        PowerGrows(partitions, dim - left + 1, dim);
        return false, partvals;
      }
      left := left - 1;
    }
    ok := true;
  }

  lemma PowerStep(p: nat, k: nat)
    ensures Power(p, k) * p == Power(p, k + 1) && Power(p, 0) == 1
  {
  }

  lemma {:induction false} PowerGrows(a: nat, m: nat, n: nat)
    requires a >= 1 && m <= n
    ensures Power(a, m) <= Power(a, n)
    decreases n
  {
    if m < n {
      PowerGrows(a, m, n - 1);
      MulMonotone(1, a, Power(a, n - 1));
    }
  }

  method CheckBooks(booklist: seq<nat>, books: seq<StaticBook.Book>) returns (ok: bool)
    ensures ok <==> forall k :: 0 <= k < |booklist| ==> Codes(books, booklist[k])
  {
    for j := 0 to |booklist|
      invariant forall k :: 0 <= k < j ==> Codes(books, booklist[k])
    {
      if booklist[j] >= |books| || !books[booklist[j]].mapping.Mapping? {
        assert !Codes(books, booklist[j]);
        return false;
      }
    }
    ok := true;
  }

  /** Read a residue. Whatever the packet holds, an accepted one names books there are, that can do what it
      asks of them; what was written comes back. */
  method Unpack(books: seq<StaticBook.Book>, opb: OggPackBuffer, ghost known: bool, ghost r: Info,
                ghost later: seq<Field>, ghost more: seq<bool>)
      returns (result: Option<Info>)
    requires opb.Valid() && |books| <= 256 && (known ==> r.Valid(books) && Next(opb, InfoFields(r, later), more))
    modifies opb
    ensures opb.Valid() && opb.bits == old(opb.bits) && (result.Some? ==> result.value.Valid(books))
    ensures result.Some? ==> Laid(old(opb.Rest()), result.value, opb.Rest())
    ensures known ==> result == Some(r) && Next(opb, later, more)
  {
    hide Row, Next, Pow2, Power, Codes, Listed, CascadesFields, ListFields, Stands, StagesAt, OggPackBuffer.Rest;
    FieldPowers();
    ghost var bits := opb.Rest();
    ghost var e := StageFields(r, later);
    ghost var d := [Field(r.groupbook, 8)] + e;
    ghost var c := [Field(if r.partitions > 0 then r.partitions - 1 else 0, 6)] + d;
    ghost var b := [Field(if r.grouping > 0 then r.grouping - 1 else 0, 24)] + c;
    var begin := GetField(opb, 24, known, r.begin, [Field(r.end, 24)] + b, more);
    var end := GetField(opb, 24, known, r.end, b, more);
    var grouping := GetField(opb, 24, known, if known then r.grouping - 1 else 0, c, more);
    var partitions := GetField(opb, 6, known, if known then r.partitions - 1 else 0, d, more);
    var groupbook := GetField(opb, 8, known, r.groupbook, e, more);
    if groupbook < 0 {
      return None;
    }
    Heads(bits, begin, end, grouping, partitions, groupbook);
    result := UnpackStages(begin, end, grouping + 1, partitions + 1, groupbook, books, opb, known, r, later, more);
  }

  method UnpackStages(begin: nat, end: nat, grouping: nat, partitions: nat, groupbook: nat, books: seq<StaticBook.Book>,
                      opb: OggPackBuffer,
                      ghost known: bool, ghost r: Info, ghost later: seq<Field>,
                      ghost more: seq<bool>) returns (result: Option<Info>)
    requires opb.Valid() && |books| <= 256
    requires begin < 0x100_0000 && end < 0x100_0000 && 1 <= grouping <= 0x100_0000 && 1 <= partitions <= 64
    requires known ==>
      && r.Valid(books) && Next(opb, StageFields(r, later), more)
      && begin == r.begin && end == r.end && grouping == r.grouping && partitions == r.partitions
      && groupbook == r.groupbook
    modifies opb
    ensures opb.Valid() && opb.bits == old(opb.bits) && (result.Some? ==> result.value.Valid(books))
    ensures result.Some? ==>
      && result.value.begin == begin && result.value.end == end && result.value.grouping == grouping
      && result.value.partitions == partitions && result.value.groupbook == groupbook
      && exists mid ::
           StagesAt(old(opb.Rest()), result.value.secondstages, result.value.booklist, mid, opb.Rest())
    ensures known ==> result == Some(r) && Next(opb, later, more)
  {
    hide Row, Next, Pow2, Power, Codes, Listed, CascadesFields, OggPackBuffer.Rest, ListStands, Chain;
    FieldPowers();
    ghost var bits := opb.Rest();
    ghost var list := if known then ListFields(r.booklist, 8, 0, later) else [];
    var ok, secondstages, acc := UnpackCascades(partitions, opb, known, if known then r.secondstages else [], list,
                                                more);
    if !ok {
      return None;
    }
    if known {
      BooksBelow(r, books);
    }
    var booklist;
    ghost var mid := opb.Rest();
    ok, booklist := GetList(opb, [], acc, 8, known, if known then r.booklist else [], later, more);
    assert ok ==> booklist[0..] == booklist;
    assert ok ==> StagesAt(bits, secondstages, booklist, mid, opb.Rest());
    if !ok || groupbook >= |books| {
      return None;
    }
    ok := CheckBooks(booklist, books);
    if !ok || books[groupbook].dim < 1 {
      return None;
    }
    var partvals;
    ok, partvals := CheckPhrases(partitions, books[groupbook].dim, |books[groupbook].lengthlist|);
    if !ok {
      return None;
    }
    assert known ==> booklist == r.booklist;
    result := Some(Info(begin, end, grouping, partitions, groupbook, secondstages, booklist, partvals));
    assert StagesAt(bits, result.value.secondstages, result.value.booklist, mid, opb.Rest());
  }

  lemma BooksBelow(r: Info, books: seq<StaticBook.Book>)
    requires r.Valid(books) && |books| <= 256
    ensures Below(r.booklist, Pow2(8))
  {
    hide Pow2;
    FieldPowers();
    forall k | 0 <= k < |r.booklist|
      ensures r.booklist[k] < 256
    {
      assert Codes(books, r.booklist[k]);
    }
  }
}
