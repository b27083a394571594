/** The setup header: every book, floor, residue, mapping and mode of a stream (section 4.2.4 of the
    Vorbis I specification). */
module SetupHeader {
  import opened Wrappers
  import opened BitMath
  import opened BitBuffer
  import opened Fields
  import CodeTree
  import StaticBook
  import Floor1Packet
  import Floor0Setup
  import FloorSetup
  import ResidueSetup
  import MappingSetup

  /** A floor of type 0 or of type 1. */
  datatype Floor = Lsp(info: Floor0Setup.Info) | Curve(floor: FloorSetup.Floor)
  {
    ghost predicate Valid(books: seq<StaticBook.Book>)
    {
      match this
      case Lsp(info) => info.Valid(books)
      case Curve(floor) => floor.Valid(|books|)
    }

    ghost predicate Spellable()
    {
      Curve? ==> FloorSetup.Spellable(floor)
    }

    function Plain(): Floor
    {
      match this
      case Lsp(info) => this
      case Curve(floor) => Curve(FloorSetup.Plain(floor))
    }

    function Kind(): nat
    {
      if Lsp? then 0 else 1
    }

    ghost function InfoFields(books: nat, later: seq<Field>): seq<Field>
      requires Curve? ==> floor.Valid(books)
    {
      match this
      case Lsp(info) => Floor0Setup.InfoFields(info, later)
      case Curve(floor) => FloorSetup.FloorFields(floor, books, later)
    }
  }

  /** A residue and which of the three kinds it is. */
  datatype Residue = Residue(kind: nat, info: ResidueSetup.Info)

  datatype Mode = Mode(blockflag: nat, windowtype: nat, transformtype: nat, mapping: nat)
  {
    predicate Valid(maps: nat)
    {
      blockflag < 2 && windowtype == 0 && transformtype == 0 && mapping < maps
    }
  }

  datatype Setup = Setup(books: seq<StaticBook.Book>, floors: seq<Floor>, residues: seq<Residue>,
                         maps: seq<MappingSetup.Info>,
                         modes: seq<Mode>)
  {
    /** What the reader makes sure of, in a stream of `channels` channels. */
    ghost predicate Valid(channels: nat)
    {
      && 1 <= |books| <= 256 && AllReadable(books)
      && 1 <= |floors| <= 64 && FloorsOk(floors, books)
      && 1 <= |residues| <= 64 && ResiduesOk(residues, books)
      && 1 <= |maps| <= 64 && MapsOk(maps, channels, |floors|, |residues|)
      && 1 <= |modes| <= 64 && ModesOk(modes, |maps|)
    }

    /** What can be written so that it comes back. */
    ghost predicate Writable(channels: nat)
    {
      && Valid(channels) && (forall i :: 0 <= i < |books| ==> StaticBook.Packable(books[i]))
      && forall i :: 0 <= i < |floors| ==> floors[i].Spellable()
    }
  }

  ghost predicate AllReadable(books: seq<StaticBook.Book>)
  {
    forall i :: 0 <= i < |books| ==> StaticBook.Readable(books[i])
  }

  ghost predicate FloorsOk(floors: seq<Floor>, books: seq<StaticBook.Book>)
  {
    forall i :: 0 <= i < |floors| ==> floors[i].Valid(books)
  }

  ghost predicate CurvesOk(floors: seq<Floor>, books: nat)
  {
    forall i :: 0 <= i < |floors| && floors[i].Curve? ==> floors[i].floor.Valid(books)
  }

  lemma FloorsAreOk(floors: seq<Floor>, books: seq<StaticBook.Book>)
    requires FloorsOk(floors, books)
    ensures CurvesOk(floors, |books|)
  {
    hide FloorSetup.Floor.Valid;
    forall i | 0 <= i < |floors| && floors[i].Curve?
      ensures floors[i].floor.Valid(|books|)
    {
      assert floors[i].Valid(books);
    }
  }

  ghost predicate ResiduesOk(residues: seq<Residue>, books: seq<StaticBook.Book>)
  {
    forall i :: 0 <= i < |residues| ==> residues[i].kind < 3 && residues[i].info.Valid(books)
  }

  ghost predicate MapsOk(maps: seq<MappingSetup.Info>, channels: nat, floors: nat, residues: nat)
  {
    forall i :: 0 <= i < |maps| ==> maps[i].Valid(channels, floors, residues)
  }

  ghost predicate ModesOk(modes: seq<Mode>, maps: nat)
  {
    forall i :: 0 <= i < |modes| ==> modes[i].Valid(maps)
  }

  /** A book without the signs of its values. */
  function Bare(b: StaticBook.Book): StaticBook.Book
  {
    StaticBook.Book(b.dim, b.lengthlist, StaticBook.Unsigned(b.mapping))
  }

  function BareBooks(books: seq<StaticBook.Book>): (r: seq<StaticBook.Book>)
    ensures |r| == |books|
  {
    seq(|books|, i requires 0 <= i < |books| => Bare(books[i]))
  }

  function PlainFloors(floors: seq<Floor>): (r: seq<Floor>)
    ensures |r| == |floors|
  {
    seq(|floors|, i requires 0 <= i < |floors| => floors[i].Plain())
  }

  /** What a header says of a setup: all of it but signs of values and books that no class uses. */
  function Said(s: Setup): Setup
  {
    Setup(BareBooks(s.books), PlainFloors(s.floors), s.residues, s.maps, s.modes)
  }

  // ---------------------------------------------------------------------------------------------
  // What is written
  // ---------------------------------------------------------------------------------------------

  ghost function FloorsFields(floors: seq<Floor>, books: nat, i: nat, later: seq<Field>): seq<Field>
    requires CurvesOk(floors, books)
    decreases |floors| - i
  {
    if i >= |floors| then later
    else [Field(floors[i].Kind(), 16)] + floors[i].InfoFields(books, FloorsFields(floors, books, i + 1, later))
  }

  ghost function ResiduesFields(residues: seq<Residue>, i: nat, later: seq<Field>): seq<Field>
    decreases |residues| - i
  {
    if i >= |residues| then later
    else
      [Field(residues[i].kind, 16)]
      + ResidueSetup.InfoFields(residues[i].info, ResiduesFields(residues, i + 1, later))
  }

  ghost function MapsFields(maps: seq<MappingSetup.Info>, channels: nat, floors: nat, residues: nat, i: nat,
                            later: seq<Field>): seq<Field>
    requires MapsOk(maps, channels, floors, residues)
    decreases |maps| - i
  {
    if i >= |maps| then later
    else
      [Field(0, 16)]
      + MappingSetup.InfoFields(maps[i], channels, MapsFields(maps, channels, floors, residues, i + 1, later))
  }

  ghost function ModesFields(modes: seq<Mode>, i: nat, later: seq<Field>): seq<Field>
    decreases |modes| - i
  {
    if i >= |modes| then later else ModeFields(modes[i], ModesFields(modes, i + 1, later))
  }

  ghost function ModeFields(mode: Mode, later: seq<Field>): seq<Field>
  {
    [Field(mode.blockflag, 1)]
        + ([Field(mode.windowtype, 16)] + ([Field(mode.transformtype, 16)] + ([Field(mode.mapping, 8)] + later)))
  }

  ghost function ModeSection(s: Setup): seq<Field>
  {
    [Field(if |s.modes| > 0 then |s.modes| - 1 else 0, 6)] + ModesFields(s.modes, 0, [Field(1, 1)] + [])
  }

  ghost function MapSection(s: Setup, channels: nat): seq<Field>
    requires s.Valid(channels)
  {
    [Field(|s.maps| - 1, 6)] + MapsFields(s.maps, channels, |s.floors|, |s.residues|, 0, ModeSection(s))
  }

  ghost function ResidueSection(s: Setup, channels: nat): seq<Field>
    requires s.Valid(channels)
  {
    [Field(|s.residues| - 1, 6)] + ResiduesFields(s.residues, 0, MapSection(s, channels))
  }

  ghost function FloorSection(s: Setup, channels: nat): seq<Field>
    requires s.Valid(channels)
  {
    FloorsAreOk(s.floors, s.books);
    [Field(|s.floors| - 1, 6)] + FloorsFields(s.floors, |s.books|, 0, ResidueSection(s, channels))
  }

  /** Everything after the books; one unused time setting comes first. */
  ghost function AfterBooks(s: Setup, channels: nat): seq<Field>
    requires s.Valid(channels)
  {
    [Field(0, 6)] + ([Field(0, 16)] + FloorSection(s, channels))
  }

  ghost function BooksBits(books: seq<StaticBook.Book>, i: nat, later: seq<bool>): seq<bool>
    requires AllReadable(books)
    decreases |books| - i
  {
    if i >= |books| then later
    else
      assert StaticBook.Readable(books[i]);
      StaticBook.BookBits(books[i]) + BooksBits(books, i + 1, later)
  }

  /** A setup header after its preamble. */
  ghost function HeaderBits(s: Setup, channels: nat): seq<bool>
    requires s.Valid(channels)
  {
    ToBits(|s.books| - 1, 8) + BooksBits(s.books, 0, Row(AfterBooks(s, channels)))
  }

  // ---------------------------------------------------------------------------------------------
  // Writing
  // ---------------------------------------------------------------------------------------------

  /** Write the floors; there is nothing to write one of type 0 with. */
  method PackFloors(s: Setup, channels: nat, opb: OggPackBuffer, ghost all: seq<bool>) returns (ok: bool)
    requires s.Valid(channels) && opb.bits + Row(FloorSection(s, channels)) == all
    modifies opb
    ensures opb.pos == old(opb.pos) && (ok <==> AllCurves(s.floors))
    ensures ok ==> opb.bits + Row(ResidueSection(s, channels)) == all
  {
    hide Row, FloorSetup.FloorFields, ResidueSection, FloorSetup.Floor.Valid, ResiduesOk, MapsOk, ModesOk, AllReadable;
    hide Floor0Setup.InfoFields, Floor0Setup.Info.Valid;
    ghost var later := ResidueSection(s, channels);
    FloorsAreOk(s.floors, s.books);
    PutField(opb, |s.floors| - 1, 6, FloorsFields(s.floors, |s.books|, 0, later), all);
    for i := 0 to |s.floors|
      invariant opb.pos == old(opb.pos) && opb.bits + Row(FloorsFields(s.floors, |s.books|, i, later)) == all
      invariant forall k :: 0 <= k < i ==> s.floors[k].Curve?
    {
      ghost var rest := FloorsFields(s.floors, |s.books|, i + 1, later);
      PutField(opb, s.floors[i].Kind(), 16, s.floors[i].InfoFields(|s.books|, rest), all);
      if s.floors[i].Lsp? {
        return false;
      }
      FloorSetup.Pack(s.floors[i].floor, opb, |s.books|, rest, all);
    }
    ok := true;
  }

  predicate AllCurves(floors: seq<Floor>)
  {
    forall i :: 0 <= i < |floors| ==> floors[i].Curve?
  }

  method PackResidues(s: Setup, channels: nat, opb: OggPackBuffer, ghost all: seq<bool>)
    requires s.Valid(channels) && opb.bits + Row(ResidueSection(s, channels)) == all
    modifies opb
    ensures opb.pos == old(opb.pos) && opb.bits + Row(MapSection(s, channels)) == all
  {
    hide Row, ResidueSetup.InfoFields, MapSection, ResidueSetup.Info.Valid, FloorsOk, MapsOk, ModesOk, AllReadable;
    ghost var later := MapSection(s, channels);
    PutField(opb, |s.residues| - 1, 6, ResiduesFields(s.residues, 0, later), all);
    for i := 0 to |s.residues|
      invariant opb.pos == old(opb.pos) && opb.bits + Row(ResiduesFields(s.residues, i, later)) == all
    {
      ghost var rest := ResiduesFields(s.residues, i + 1, later);
      PutField(opb, s.residues[i].kind, 16, ResidueSetup.InfoFields(s.residues[i].info, rest), all);
      ResidueSetup.Pack(s.residues[i].info, opb, s.books, rest, all);
    }
  }

  method PackMaps(s: Setup, channels: nat, opb: OggPackBuffer, ghost all: seq<bool>)
    requires s.Valid(channels) && opb.bits + Row(MapSection(s, channels)) == all
    modifies opb
    ensures opb.pos == old(opb.pos) && opb.bits + Row(ModeSection(s)) == all
  {
    hide Row, MappingSetup.InfoFields, ModeSection, FloorsOk, ResiduesOk, ModesOk, AllReadable;
    ghost var later, floors, residues := ModeSection(s), |s.floors|, |s.residues|;
    PutField(opb, |s.maps| - 1, 6, MapsFields(s.maps, channels, floors, residues, 0, later), all);
    for i := 0 to |s.maps|
      invariant opb.pos == old(opb.pos)
      invariant opb.bits + Row(MapsFields(s.maps, channels, floors, residues, i, later)) == all
    {
      ghost var rest := MapsFields(s.maps, channels, floors, residues, i + 1, later);
      PutField(opb, 0, 16, MappingSetup.InfoFields(s.maps[i], channels, rest), all);
      MappingSetup.Pack(s.maps[i], channels, opb, floors, residues, rest, all);
    }
  }

  method PackModes(s: Setup, opb: OggPackBuffer, ghost all: seq<bool>)
    requires |s.modes| > 0 && opb.bits + Row(ModeSection(s)) == all
    modifies opb
    ensures opb.pos == old(opb.pos) && opb.bits == all
  {
    hide Row;
    ghost var end := [Field(1, 1)] + [];
    PutField(opb, |s.modes| - 1, 6, ModesFields(s.modes, 0, end), all);
    for i := 0 to |s.modes|
      invariant opb.pos == old(opb.pos) && opb.bits + Row(ModesFields(s.modes, i, end)) == all
    {
      var mode := s.modes[i];
      ghost var d := ModesFields(s.modes, i + 1, end);
      ghost var c := [Field(mode.mapping, 8)] + d;
      ghost var b := [Field(mode.transformtype, 16)] + c;
      PutField(opb, mode.blockflag, 1, [Field(mode.windowtype, 16)] + b, all);
      PutField(opb, mode.windowtype, 16, b, all);
      PutField(opb, mode.transformtype, 16, c, all);
      PutField(opb, mode.mapping, 8, d, all);
    }
    PutField(opb, 1, 1, [], all);
    RowNone();
    assert opb.bits + [] == opb.bits;
  }

  lemma RowNone()
    ensures Row([]) == []
  {
  }

  method PackBooks(books: seq<StaticBook.Book>, guess: nat, opb: OggPackBuffer, ghost later: seq<bool>,
                   ghost all: seq<bool>)
    requires AllReadable(books) && (forall i :: 0 <= i < |books| ==> StaticBook.Packable(books[i]))
    requires opb.bits + BooksBits(books, 0, later) == all
    modifies opb
    ensures opb.pos == old(opb.pos) && opb.bits + later == all
  {
    hide StaticBook.BookBits, StaticBook.Packable, StaticBook.Readable;
    for i := 0 to |books|
      invariant opb.pos == old(opb.pos) && opb.bits + BooksBits(books, i, later) == all
    {
      assert StaticBook.Readable(books[i]) && StaticBook.Packable(books[i]);
      Lengths(books[i]);
      Regroup(opb.bits, StaticBook.BookBits(books[i]), BooksBits(books, i + 1, later));
      StaticBook.Pack(books[i], guess, opb);
    }
  }

  lemma Lengths(b: StaticBook.Book)
    requires StaticBook.Readable(b)
    ensures CodeTree.ValidLengths(b.lengthlist)
  {
  }

  /** Write a setup header after its preamble, unless it has a floor of type 0. */
  method Pack(s: Setup, channels: nat, guess: nat, opb: OggPackBuffer) returns (ok: bool)
    requires s.Writable(channels)
    modifies opb
    ensures opb.pos == old(opb.pos) && (ok <==> AllCurves(s.floors))
    ensures ok ==> opb.bits == old(opb.bits) + HeaderBits(s, channels)
  {
    hide Row, ToBits, FloorSection, BooksBits, StaticBook.Packable, Floor.Spellable, FloorsOk, ResiduesOk, MapsOk;
    hide ModesOk;
    ghost var all := opb.bits + HeaderBits(s, channels);
    ghost var rest := AfterBooks(s, channels);
    Regroup(opb.bits, ToBits(|s.books| - 1, 8), BooksBits(s.books, 0, Row(rest)));
    opb.Write(|s.books| - 1, 8);
    PackBooks(s.books, guess, opb, Row(rest), all);
    PutField(opb, 0, 6, [Field(0, 16)] + FloorSection(s, channels), all);
    PutField(opb, 0, 16, FloorSection(s, channels), all);
    ok := PackFloors(s, channels, opb, all);
    if !ok {
      return false;
    }
    PackResidues(s, channels, opb, all);
    PackMaps(s, channels, opb, all);
    PackModes(s, opb, all);
  }

  // ---------------------------------------------------------------------------------------------
  // Reading
  // ---------------------------------------------------------------------------------------------

  lemma {:induction false} BooksLength(books: seq<StaticBook.Book>, i: nat, later: seq<bool>)
    requires AllReadable(books)
    ensures |BooksBits(books, i, later)| >= |later|
    decreases |books| - i
  {
    hide StaticBook.BookBits, StaticBook.Readable;
    if i < |books| {
      BooksLength(books, i + 1, later);
    }
  }

  // ---------------------------------------------------------------------------------------------
  // Where a packet has each part
  // ---------------------------------------------------------------------------------------------

  /** Six bits say how many sixteen-bit zeros more than one there are. */
  ghost predicate TimesAt(bits: seq<bool>, rest: seq<bool>)
  {
    && 6 <= |bits|
    && var n := FromBits(bits[0..6]) + 1;
    6 + n * 16 <= |bits| && rest == bits[6 + n * 16..] && forall i :: 0 <= i < n ==> ZeroAt(bits, i)
  }

  ghost predicate ZeroAt(bits: seq<bool>, i: nat)
  {
    Stands(bits, 6 + i * 16, 16, 0)
  }

  /** The type of a floor in sixteen bits, and the floor. */
  ghost predicate FloorAt(bits: seq<bool>, f: Floor, rest: seq<bool>)
  {
    && 16 <= |bits| && Stands(bits, 0, 16, f.Kind())
    && match f
       case Lsp(info) => Floor0Setup.Laid(bits[16..], info, rest)
       case Curve(floor) => FloorSetup.Laid(bits[16..], floor, rest)
  }

  ghost predicate ResidueAt(bits: seq<bool>, r: Residue, rest: seq<bool>)
  {
    16 <= |bits| && Stands(bits, 0, 16, r.kind) && ResidueSetup.Laid(bits[16..], r.info, rest)
  }

  ghost function MapAt(channels: nat): (seq<bool>, MappingSetup.Info, seq<bool>) -> bool
  {
    (bits: seq<bool>, m: MappingSetup.Info, rest: seq<bool>) =>
      16 <= |bits| && Stands(bits, 0, 16, 0) && MappingSetup.Laid(bits[16..], m, channels, rest)
  }

  /** A bit for the block size, two unused types, and the mapping. */
  ghost predicate ModeAt(bits: seq<bool>, m: Mode, rest: seq<bool>)
  {
    && Stands(bits, 0, 1, m.blockflag) && Stands(bits, 1, 16, m.windowtype) && Stands(bits, 17, 16, m.transformtype)
    && Stands(bits, 33, 8, m.mapping) && 41 <= |bits| && rest == bits[41..]
  }

  lemma ModeReads(bits: seq<bool>, a: nat, b: nat, c: nat, d: nat)
    requires Stands(bits, 0, 1, a) && 1 <= |bits| && Stands(bits[1..], 0, 16, b) && 16 <= |bits[1..]|
    requires var r := bits[1..][16..]; Stands(r, 0, 16, c) && 16 <= |r| && Stands(r[16..], 0, 8, d)
    ensures 8 <= |bits[1..][16..][16..]| && ModeAt(bits, Mode(a, b, c, d), bits[1..][16..][16..][8..])
  {
    hide Stands;
    NextStands(bits, 1, 16, b);
    NextStands(bits, 17, 16, c);
    NextStands(bits, 33, 8, d);
  }

  /** After the books: time settings, floors, residues, mappings, modes, and a set bit. */
  ghost predicate PartsAt(bits: seq<bool>, s: Setup, channels: nat, floors: seq<bool>, residues: seq<bool>,
                          maps: seq<bool>, modes: seq<bool>, end: seq<bool>, rest: seq<bool>)
  {
    && TimesAt(bits, floors) && SectionAt(FloorAt, floors, s.floors, residues)
    && SectionAt(ResidueAt, residues, s.residues, maps) && SectionAt(MapAt(channels), maps, s.maps, modes)
    && SectionAt(ModeAt, modes, s.modes, end) && Stands(end, 0, 1, 1) && 1 <= |end| && rest == end[1..]
  }

  ghost predicate AfterBooksAt(bits: seq<bool>, s: Setup, channels: nat, rest: seq<bool>)
  {
    exists floors, residues, maps, modes, end :: PartsAt(bits, s, channels, floors, residues, maps, modes, end, rest)
  }

  /** Eight bits say how many books more than one there are; they follow, and then the rest. */
  ghost predicate Laid(bits: seq<bool>, s: Setup, channels: nat, rest: seq<bool>)
  {
    && 8 <= |bits| && Stands(bits, 0, 8, |s.books| - 1)
    && exists mid :: Chain(StaticBook.BookAt, bits[8..], s.books, mid) && AfterBooksAt(mid, s, channels, rest)
  }

  method UnpackBooks(n: nat, guess: nat, opb: OggPackBuffer, ghost known: bool, ghost books: seq<StaticBook.Book>,
                     ghost later: seq<bool>)
      returns (ok: bool, got: seq<StaticBook.Book>)
    requires opb.Valid()
    requires known ==>
      && |books| == n && AllReadable(books) && (forall i :: 0 <= i < n ==> StaticBook.Packable(books[i]))
      && opb.Rest() == BooksBits(books, 0, later) && |opb.bits| % 8 == 0 && |later| >= 7
    modifies opb
    ensures opb.Valid() && opb.bits == old(opb.bits) && (ok ==> |got| == n && AllReadable(got))
    ensures ok ==> Chain(StaticBook.BookAt, old(opb.Rest()), got, opb.Rest())
    ensures known ==> ok && got == BareBooks(books) && opb.Rest() == later
  {
    hide StaticBook.BookBits, StaticBook.Packable, StaticBook.Readable, StaticBook.BookAt, Chain;
    ghost var start := opb.Rest();
    ChainEnds(StaticBook.BookAt, start);
    got := [];
    for i := 0 to n
      invariant opb.Valid() && opb.bits == old(opb.bits) && |got| == i && AllReadable(got)
      invariant Chain(StaticBook.BookAt, start, got, opb.Rest())
      invariant known ==> got == BareBooks(books)[..i] && opb.Rest() == BooksBits(books, i, later)
    {
      if known {
        BooksLength(books, i + 1, later);
        assert StaticBook.Readable(books[i]);
        Lengths(books[i]);
      }
      ghost var mid := opb.Rest();
      var b := StaticBook.Unpack(guess, opb, known,
                                 if known then books[i] else StaticBook.Book(0, [], StaticBook.NoMapping),
                                 if known then BooksBits(books, i + 1, later) else []);
      if b == None {
        return false, [];
      }
      ChainMore(StaticBook.BookAt, start, got, b.value, mid, opb.Rest());
      got := got + [b.value];
    }
    ok := true;
  }

  lemma SectionStarts<T(!new)>(at: (seq<bool>, T, seq<bool>) -> bool, bits: seq<bool>, n: int)
    requires n >= 0 ==> Stands(bits, 0, 6, n)
    ensures n >= 0 ==> 6 <= |bits| && Chain(at, bits[6..], [], bits[6..])
  {
    if n >= 0 {
      ChainEnds(at, bits[6..]);
    }
  }

  lemma StandsLong(bits: seq<bool>, width: nat, v: int)
    requires Stands(bits, 0, width, v)
    ensures width <= |bits|
  {
  }

  /** Time settings are placeholders: each must be 0. */
  method UnpackTimes(opb: OggPackBuffer, ghost known: bool, ghost later: seq<Field>, ghost more: seq<bool>)
      returns (ok: bool)
    requires opb.Valid() && (known ==> Next(opb, [Field(0, 6)] + ([Field(0, 16)] + later), more))
    modifies opb
    ensures opb.Valid() && opb.bits == old(opb.bits) && (ok ==> TimesAt(old(opb.Rest()), opb.Rest()))
    ensures known ==> ok && Next(opb, later, more)
  {
    hide Row, Next, Pow2, Stands, OggPackBuffer.Rest, ZeroAt;
    FieldPowers();
    ghost var bits := opb.Rest();
    var times := GetField(opb, 6, known, 0, [Field(0, 16)] + later, more);
    if times < 0 {
      return false;
    }
    FirstSix(bits, times);
    times := times + 1;
    for i := 0 to times
      invariant opb.Valid() && opb.bits == old(opb.bits)
      invariant 6 + i * 16 <= |bits| && opb.Rest() == bits[6 + i * 16..] && forall k :: 0 <= k < i ==> ZeroAt(bits, k)
      invariant known ==> Next(opb, if i == 0 then [Field(0, 16)] + later else later, more)
    {
      var test := GetField(opb, 16, known, 0, later, more);
      if test < 0 || test >= 1 {
        return false;
      }
      ZeroRead(bits, i);
    }
    ok := times > 0;
  }

  lemma FirstSix(bits: seq<bool>, n: int)
    requires Stands(bits, 0, 6, n)
    ensures 6 <= |bits| && n == FromBits(bits[0..6])
  {
  }

  lemma ZeroRead(bits: seq<bool>, i: nat)
    requires 6 + i * 16 <= |bits| && Stands(bits[6 + i * 16..], 0, 16, 0)
    ensures ZeroAt(bits, i) && 6 + (i + 1) * 16 <= |bits|
    ensures bits[6 + i * 16..][16..] == bits[6 + (i + 1) * 16..]
  {
    NextStands(bits, 6 + i * 16, 16, 0);
  }

  method UnpackFloor(books: seq<StaticBook.Book>, opb: OggPackBuffer, ghost known: bool, ghost f: Floor,
                     ghost later: seq<Field>, ghost more: seq<bool>)
      returns (result: Option<Floor>)
    requires opb.Valid() && 1 <= |books| <= 256
    requires known ==>
      && f.Valid(books) && f.Spellable()
      && Next(opb, [Field(f.Kind(), 16)] + f.InfoFields(|books|, later), more)
    modifies opb
    ensures opb.Valid() && opb.bits == old(opb.bits) && (result.Some? ==> result.value.Valid(books))
    ensures result.Some? ==> FloorAt(old(opb.Rest()), result.value, opb.Rest())
    ensures known ==> result == Some(f.Plain()) && Next(opb, later, more)
  {
    hide Stands, OggPackBuffer.Rest, Floor0Setup.Laid, FloorSetup.Laid;
    hide Row, Next, Pow2, FloorSetup.FloorFields, FloorSetup.Floor.Valid, FloorSetup.Spellable, FloorSetup.Plain;
    hide Floor0Setup.InfoFields, Floor0Setup.Info.Valid;
    FieldPowers();
    var kind := GetField(opb, 16, known, if known then f.Kind() else 0,
                         if known then f.InfoFields(|books|, later) else [], more);
    if kind == 0 {
      var info := Floor0Setup.Unpack(books, opb, known,
                                     if known then f.info else Floor0Setup.Info(1, 1, 1, 0, 0, [0]), later, more);
      if info.Some? {
        return Some(Lsp(info.value));
      }
    } else if kind == 1 {
      var floor := FloorSetup.Unpack(|books|, opb, known,
                                     if known then f.floor
                                     else FloorSetup.Floor(Floor1Packet.FloorInfo([], []), 1, [0, 1]), later, more);
      if floor.Some? {
        return Some(Curve(floor.value));
      }
    }
    result := None;
  }

  lemma NoFloors(floors: seq<Floor>, n: nat, books: seq<StaticBook.Book>, later: seq<Field>)
    ensures FloorsOk([], books) && PlainFloors(floors)[..0] == []
    ensures PlainFloors(floors)[..|floors|] == PlainFloors(floors)
    ensures CurvesOk(floors, n) ==> FloorsFields(floors, n, |floors|, later) == later
  {
  }

  lemma NextFloor(floors: seq<Floor>, books: seq<StaticBook.Book>, i: nat, later: seq<Field>)
    requires FloorsOk(floors, books) && CurvesOk(floors, |books|) && i < |floors|
    ensures floors[i].Valid(books) && (floors[i].Curve? ==> floors[i].floor.Valid(|books|))
    ensures FloorsFields(floors, |books|, i, later)
         == [Field(floors[i].Kind(), 16)] + floors[i].InfoFields(|books|, FloorsFields(floors, |books|, i + 1, later))
    ensures PlainFloors(floors)[..i] + [floors[i].Plain()] == PlainFloors(floors)[..i + 1]
  {
    hide Floor.InfoFields, FloorSetup.Floor.Valid, Floor.Valid, Floor.Plain;
  }

  lemma OneMoreFloor(got: seq<Floor>, f: Floor, books: seq<StaticBook.Book>)
    requires FloorsOk(got, books) && f.Valid(books)
    ensures FloorsOk(got + [f], books)
  {
    hide Floor.Valid;
  }

  method UnpackFloors(books: seq<StaticBook.Book>, opb: OggPackBuffer, ghost known: bool, ghost floors: seq<Floor>,
                      ghost later: seq<Field>, ghost more: seq<bool>)
      returns (ok: bool, got: seq<Floor>)
    requires opb.Valid() && 1 <= |books| <= 256
    requires known ==>
      && 1 <= |floors| <= 64 && FloorsOk(floors, books) && CurvesOk(floors, |books|)
      && (forall i :: 0 <= i < |floors| ==> floors[i].Spellable())
      && Next(opb, [Field(|floors| - 1, 6)] + FloorsFields(floors, |books|, 0, later), more)
    modifies opb
    ensures opb.Valid() && opb.bits == old(opb.bits) && (ok ==> 1 <= |got| <= 64 && FloorsOk(got, books))
    ensures ok ==> SectionAt(FloorAt, old(opb.Rest()), got, opb.Rest())
    ensures known ==> ok && got == PlainFloors(floors) && Next(opb, later, more)
  {
    hide Row, Next, Pow2, Floor.InfoFields, FloorSetup.Floor.Valid, Floor.Valid, Floor.Spellable, Floor.Plain;
    hide Stands, FloorAt, Chain, OggPackBuffer.Rest, FloorsOk, CurvesOk, FloorsFields, PlainFloors;
    FieldPowers();
    ghost var start := opb.Rest();
    NoFloors(floors, |books|, books, later);
    var n := GetField(opb, 6, known, if known then |floors| - 1 else 0,
                      if known then FloorsFields(floors, |books|, 0, later) else [], more);
    SectionStarts(FloorAt, start, n);
    n := n + 1;
    got := [];
    for i := 0 to n
      invariant opb.Valid() && opb.bits == old(opb.bits) && |got| == i && FloorsOk(got, books)
      invariant n > 0 ==> 6 <= |start| && Chain(FloorAt, start[6..], got, opb.Rest())
      invariant known ==> got == PlainFloors(floors)[..i] && Next(opb, FloorsFields(floors, |books|, i, later), more)
    {
      ghost var rest := if known then FloorsFields(floors, |books|, i + 1, later) else [];
      ghost var mid := opb.Rest();
      if known {
        NextFloor(floors, books, i, later);
      }
      var f := UnpackFloor(books, opb, known,
                           if known then floors[i] else Lsp(Floor0Setup.Info(1, 1, 1, 0, 0, [0])), rest, more);
      if f == None {
        return false, [];
      }
      ChainMore(FloorAt, start[6..], got, f.value, mid, opb.Rest());
      OneMoreFloor(got, f.value, books);
      got := got + [f.value];
    }
    ok := n > 0;
  }

  method UnpackResidues(books: seq<StaticBook.Book>, opb: OggPackBuffer, ghost known: bool,
                        ghost residues: seq<Residue>, ghost later: seq<Field>,
                        ghost more: seq<bool>) returns (ok: bool, got: seq<Residue>)
    requires opb.Valid() && |books| <= 256
    requires known ==>
      && 1 <= |residues| <= 64 && ResiduesOk(residues, books)
      && Next(opb, [Field(|residues| - 1, 6)] + ResiduesFields(residues, 0, later), more)
    modifies opb
    ensures opb.Valid() && opb.bits == old(opb.bits) && (ok ==> 1 <= |got| <= 64 && ResiduesOk(got, books))
    ensures ok ==> SectionAt(ResidueAt, old(opb.Rest()), got, opb.Rest())
    ensures known ==> ok && got == residues && Next(opb, later, more)
  {
    hide Row, Next, Pow2, ResidueSetup.InfoFields, ResidueSetup.Info.Valid;
    hide Stands, Chain, OggPackBuffer.Rest, ResidueSetup.Laid;
    FieldPowers();
    ghost var start := opb.Rest();
    var n := GetField(opb, 6, known, if known then |residues| - 1 else 0, ResiduesFields(residues, 0, later), more);
    SectionStarts(ResidueAt, start, n);
    n := n + 1;
    got := [];
    for i := 0 to n
      invariant opb.Valid() && opb.bits == old(opb.bits) && |got| == i && ResiduesOk(got, books)
      invariant n > 0 ==> 6 <= |start| && Chain(ResidueAt, start[6..], got, opb.Rest())
      invariant known ==> got == residues[..i] && Next(opb, ResiduesFields(residues, i, later), more)
    {
      ghost var rest := ResiduesFields(residues, i + 1, later);
      ghost var r := if known then residues[i] else Residue(0, ResidueSetup.Info(0, 0, 1, 1, 0, [], [], 0));
      ghost var mid := opb.Rest();
      var kind := GetField(opb, 16, known, r.kind, ResidueSetup.InfoFields(r.info, rest), more);
      if kind < 0 || kind >= 3 {
        return false, [];
      }
      var info := ResidueSetup.Unpack(books, opb, known, r.info, rest, more);
      if info == None {
        return false, [];
      }
      StandsLong(mid, 16, kind);
      ChainMore(ResidueAt, start[6..], got, Residue(kind, info.value), mid, opb.Rest());
      got := got + [Residue(kind, info.value)];
    }
    ok := n > 0;
  }

  method UnpackMaps(channels: nat, floors: nat, residues: nat, opb: OggPackBuffer, ghost known: bool,
                    ghost maps: seq<MappingSetup.Info>,
                    ghost later: seq<Field>, ghost more: seq<bool>) returns (ok: bool, got: seq<MappingSetup.Info>)
    requires opb.Valid() && floors <= 64 && residues <= 64
    requires known ==>
      && 1 <= |maps| <= 64 && MapsOk(maps, channels, floors, residues)
      && Next(opb, [Field(|maps| - 1, 6)] + MapsFields(maps, channels, floors, residues, 0, later), more)
    modifies opb
    ensures opb.Valid() && opb.bits == old(opb.bits)
    ensures (ok ==> 1 <= |got| <= 64 && MapsOk(got, channels, floors, residues))
    ensures ok ==> SectionAt(MapAt(channels), old(opb.Rest()), got, opb.Rest())
    ensures known ==> ok && got == maps && Next(opb, later, more)
  {
    hide Row, Next, Pow2, MappingSetup.InfoFields, Stands, Chain, OggPackBuffer.Rest, MappingSetup.Laid;
    FieldPowers();
    ghost var start := opb.Rest();
    var n := GetField(opb, 6, known, if known then |maps| - 1 else 0,
                      if known then MapsFields(maps, channels, floors, residues, 0, later) else [], more);
    SectionStarts(MapAt(channels), start, n);
    n := n + 1;
    got := [];
    for i := 0 to n
      invariant opb.Valid() && opb.bits == old(opb.bits) && |got| == i && MapsOk(got, channels, floors, residues)
      invariant n > 0 ==> 6 <= |start| && Chain(MapAt(channels), start[6..], got, opb.Rest())
      invariant known ==> got == maps[..i] && Next(opb, MapsFields(maps, channels, floors, residues, i, later), more)
    {
      ghost var rest := if known then MapsFields(maps, channels, floors, residues, i + 1, later) else [];
      ghost var mid := opb.Rest();
      var kind := GetField(opb, 16, known, 0, if known then MappingSetup.InfoFields(maps[i], channels, rest) else [],
                           more);
      if kind < 0 || kind >= 1 {
        return false, [];
      }
      var m := MappingSetup.Unpack(channels, floors, residues, opb, known,
                                   if known then maps[i] else MappingSetup.Info(1, [], [], [], [], []), rest, more);
      if m == None {
        return false, [];
      }
      StandsLong(mid, 16, kind);
      ChainMore(MapAt(channels), start[6..], got, m.value, mid, opb.Rest());
      got := got + [m.value];
    }
    ok := n > 0;
  }

  method UnpackMode(maps: nat, opb: OggPackBuffer, ghost known: bool, ghost mode: Mode, ghost later: seq<Field>,
                    ghost more: seq<bool>)
      returns (result: Option<Mode>)
    requires opb.Valid() && maps <= 64
    requires known ==> mode.Valid(maps) && Next(opb, ModeFields(mode, later), more)
    modifies opb
    ensures opb.Valid() && opb.bits == old(opb.bits) && (result.Some? ==> result.value.Valid(maps))
    ensures result.Some? ==> ModeAt(old(opb.Rest()), result.value, opb.Rest())
    ensures known ==> result == Some(mode) && Next(opb, later, more)
  {
    hide Row, Next, Pow2, Stands, OggPackBuffer.Rest, ModeAt;
    FieldPowers();
    ghost var start := opb.Rest();
    ghost var c := [Field(mode.mapping, 8)] + later;
    ghost var b := [Field(mode.transformtype, 16)] + c;
    var blockflag := GetField(opb, 1, known, mode.blockflag, [Field(mode.windowtype, 16)] + b, more);
    var windowtype := GetField(opb, 16, known, mode.windowtype, b, more);
    var transformtype := GetField(opb, 16, known, mode.transformtype, c, more);
    var mapping := GetField(opb, 8, known, mode.mapping, later, more);
    if windowtype >= 1 || transformtype >= 1 || mapping >= maps || mapping < 0 {
      return None;
    }
    ModeReads(start, blockflag, windowtype, transformtype, mapping);
    result := Some(Mode(blockflag, windowtype, transformtype, mapping));
  }

  method UnpackModes(maps: nat, opb: OggPackBuffer, ghost known: bool, ghost modes: seq<Mode>, ghost later: seq<Field>,
                     ghost more: seq<bool>)
      returns (ok: bool, got: seq<Mode>)
    requires opb.Valid() && maps <= 64
    requires known ==>
      1 <= |modes| <= 64 && ModesOk(modes, maps)
      && Next(opb, [Field(|modes| - 1, 6)] + ModesFields(modes, 0, later), more)
    modifies opb
    ensures opb.Valid() && opb.bits == old(opb.bits) && (ok ==> 1 <= |got| <= 64 && ModesOk(got, maps))
    ensures ok ==> SectionAt(ModeAt, old(opb.Rest()), got, opb.Rest())
    ensures known ==> ok && got == modes && Next(opb, later, more)
  {
    hide Row, Next, Pow2, ModeFields, Mode.Valid, Stands, ModeAt, Chain, OggPackBuffer.Rest;
    FieldPowers();
    ghost var start := opb.Rest();
    var n := GetField(opb, 6, known, if known then |modes| - 1 else 0, ModesFields(modes, 0, later), more);
    SectionStarts(ModeAt, start, n);
    n := n + 1;
    got := [];
    for i := 0 to n
      invariant opb.Valid() && opb.bits == old(opb.bits) && |got| == i && ModesOk(got, maps)
      invariant n > 0 ==> 6 <= |start| && Chain(ModeAt, start[6..], got, opb.Rest())
      invariant known ==> got == modes[..i] && Next(opb, ModesFields(modes, i, later), more)
    {
      ghost var mid := opb.Rest();
      var mode := UnpackMode(maps, opb, known, if known then modes[i] else Mode(0, 0, 0, 0),
                             ModesFields(modes, i + 1, later), more);
      if mode == None {
        return false, [];
      }
      ChainMore(ModeAt, start[6..], got, mode.value, mid, opb.Rest());
      got := got + [mode.value];
    }
    ok := n > 0;
  }

  /** Residues name the same books, with or without the signs of their values. */
  lemma BareResidues(residues: seq<Residue>, books: seq<StaticBook.Book>)
    requires ResiduesOk(residues, books)
    ensures ResiduesOk(residues, BareBooks(books))
  {
    hide ResidueSetup.Listed;
    forall i | 0 <= i < |residues|
      ensures residues[i].info.Valid(BareBooks(books))
    {
      var r := residues[i].info;
      forall k | 0 <= k < |r.booklist|
        ensures ResidueSetup.Codes(BareBooks(books), r.booklist[k])
      {
        assert ResidueSetup.Codes(books, r.booklist[k]);
      }
    }
  }

  /** And so do floors. */
  lemma BareFloors(floors: seq<Floor>, books: seq<StaticBook.Book>)
    requires FloorsOk(floors, books)
    ensures FloorsOk(floors, BareBooks(books)) && CurvesOk(floors, |books|)
  {
    hide FloorSetup.Floor.Valid;
    FloorsAreOk(floors, books);
    forall i | 0 <= i < |floors|
      ensures floors[i].Valid(BareBooks(books))
    {
      assert floors[i].Valid(books);
      if floors[i].Lsp? {
        forall k | 0 <= k < |floors[i].info.books|
          ensures Floor0Setup.HasVectors(BareBooks(books), floors[i].info.books[k])
        {
          assert Floor0Setup.HasVectors(books, floors[i].info.books[k]);
        }
      }
    }
  }

  /** What follows the books. */
  method UnpackRest(channels: nat, books: seq<StaticBook.Book>, opb: OggPackBuffer, ghost known: bool, ghost s: Setup,
                    ghost more: seq<bool>)
      returns (result: Option<Setup>)
    requires opb.Valid() && 1 <= |books| <= 256 && AllReadable(books)
    requires known ==> s.Writable(channels) && books == BareBooks(s.books) && Next(opb, AfterBooks(s, channels), more)
    modifies opb
    ensures opb.Valid() && opb.bits == old(opb.bits) && (result.Some? ==> result.value.Valid(channels))
    ensures result.Some? ==>
      result.value.books == books && AfterBooksAt(old(opb.Rest()), result.value, channels, opb.Rest())
    ensures known ==> result == Some(Said(s)) && opb.Rest() == more
  {
    hide Row, Next, Pow2, AllReadable, FloorsOk, ResiduesOk, MapsOk, ModesOk, FloorsFields, ResiduesFields, MapsFields,
         ModesFields, BareBooks,
         PlainFloors, Floor.Spellable, StaticBook.Packable;
    hide Stands, SectionAt, TimesAt, OggPackBuffer.Rest, FloorAt, ResidueAt, MapAt, ModeAt;
    FieldPowers();
    ghost var start := opb.Rest();
    if known {
      BareResidues(s.residues, s.books);
      BareFloors(s.floors, s.books);
    }
    ghost var floorsNext := if known then FloorSection(s, channels) else [];
    ghost var residuesNext := if known then ResidueSection(s, channels) else [];
    ghost var mapsNext := if known then MapSection(s, channels) else [];
    ghost var modesNext := if known then ModeSection(s) else [];
    var ok := UnpackTimes(opb, known, floorsNext, more);
    if !ok {
      return None;
    }
    ghost var floorBits := opb.Rest();
    var floors;
    ok, floors := UnpackFloors(books, opb, known, if known then s.floors else [], residuesNext, more);
    if !ok {
      return None;
    }
    ghost var residueBits := opb.Rest();
    var residues;
    ok, residues := UnpackResidues(books, opb, known, s.residues, mapsNext, more);
    if !ok {
      return None;
    }
    ghost var mapBits := opb.Rest();
    var maps;
    ok, maps := UnpackMaps(channels, |floors|, |residues|, opb, known, if known then s.maps else [], modesNext, more);
    if !ok {
      return None;
    }
    ghost var modeBits := opb.Rest();
    var modes;
    ok, modes := UnpackModes(|maps|, opb, known, s.modes, [Field(1, 1)] + [], more);
    if !ok {
      return None;
    }
    ghost var endBits := opb.Rest();
    var end := GetField(opb, 1, known, 1, [], more);
    NothingNext(opb, more);
    if end != 1 {
      return None;
    }
    StandsLong(endBits, 1, end);
    result := Some(Setup(books, floors, residues, maps, modes));
    assert PartsAt(start, result.value, channels, floorBits, residueBits, mapBits, modeBits, endBits, opb.Rest());
  }

  /** Read a setup header. Whatever the packet holds, everything in an accepted setup refers only to what
      the setup has, in range; and what was written comes back, from exactly the bits that were written. */
  method Unpack(channels: nat, guess: nat, opb: OggPackBuffer, ghost known: bool, ghost s: Setup, ghost more: seq<bool>)
      returns (result: Option<Setup>)
    requires opb.Valid()
    requires known ==> s.Writable(channels) && |opb.bits| % 8 == 0 && opb.Rest() == HeaderBits(s, channels) + more
    modifies opb
    ensures opb.Valid() && opb.bits == old(opb.bits) && (result.Some? ==> result.value.Valid(channels))
    ensures result.Some? ==> Laid(old(opb.Rest()), result.value, channels, opb.Rest())
    ensures known ==> result == Some(Said(s)) && opb.Rest() == more
  {
    hide Chain, AfterBooksAt, StaticBook.BookAt;
    ghost var start := opb.Rest();
    hide ToBits, Pow2, AllReadable, FloorsOk, ResiduesOk, MapsOk, ModesOk, BareBooks, PlainFloors,
         Floor.Spellable, StaticBook.Packable,
         AfterBooks, BooksBits, Row;
    FieldPowers();
    ghost var later := if known then Row(AfterBooks(s, channels)) + more else [];
    ghost var list := if known then s.books else [];
    if known {
      BooksBefore(s.books, 0, Row(AfterBooks(s, channels)), more);
      Regroup(ToBits(|s.books| - 1, 8), BooksBits(s.books, 0, Row(AfterBooks(s, channels))), more);
      TimesLength(s, channels);
    }
    var n := opb.ReadBack(8, known, if known then |s.books| - 1 else 0,
                          if known then BooksBits(s.books, 0, later) else []);
    if n + 1 <= 0 {
      return None;
    }
    var ok, books := UnpackBooks(n + 1, guess, opb, known, list, later);
    if !ok {
      return None;
    }
    ghost var mid := opb.Rest();
    result := UnpackRest(channels, books, opb, known, s, more);
    CountStands(start, n);
    if result.Some? {
      assert Chain(StaticBook.BookAt, start[8..], result.value.books, mid);
    }
  }

  lemma CountStands(bits: seq<bool>, n: int)
    requires 8 <= |bits| && n == FromBits(bits[..8])
    ensures Stands(bits, 0, 8, n)
  {
    assert bits[0..8] == bits[..8];
  }

  lemma {:induction false} BooksBefore(books: seq<StaticBook.Book>, i: nat, later: seq<bool>, more: seq<bool>)
    requires AllReadable(books)
    ensures BooksBits(books, i, later) + more == BooksBits(books, i, later + more)
    decreases |books| - i
  {
    hide StaticBook.BookBits, StaticBook.Readable;
    if i < |books| {
      assert StaticBook.Readable(books[i]);
      Lengths(books[i]);
      BooksBefore(books, i + 1, later, more);
      Regroup(StaticBook.BookBits(books[i]), BooksBits(books, i + 1, later), more);
    }
  }

  lemma TimesLength(s: Setup, channels: nat)
    requires s.Valid(channels)
    ensures |Row(AfterBooks(s, channels))| >= 22
  {
    hide Row, FloorSection, ToBits;
    RowFirst(0, 6, [Field(0, 16)] + FloorSection(s, channels));
    RowFirst(0, 16, FloorSection(s, channels));
  }

  // ---------------------------------------------------------------------------------------------
  // The whole packet
  // ---------------------------------------------------------------------------------------------

  /** The packet type, and "vorbis". */
  function Preamble(): seq<nat>
  {
    [5, 118, 111, 114, 98, 105, 115]
  }

  /** A setup written as a packet of whole bytes, read back after its preamble. */
  method RoundTrip(s: Setup, channels: nat, packGuess: nat, unpackGuess: nat)
      returns (result: Option<Setup>, opb: OggPackBuffer)
    requires s.Writable(channels) && AllCurves(s.floors)
    ensures result == Some(Said(s)) && opb.Valid() && |opb.Rest()| < 8
  {
    hide Setup.Valid, HeaderBits, Row, StaticBook.Packable, Floor.Spellable;
    opb := new OggPackBuffer([]);
    PutList(opb, Preamble(), 8, 0, 7, [], Row(ListFields(Preamble(), 8, 0, [])));
    RowNone();
    ghost var front := opb.bits;
    opb.Adv(|opb.bits|);
    var ok := Pack(s, channels, packGuess, opb);
    var padding := (8 - |opb.bits| % 8) % 8;
    ghost var written := opb.bits;
    opb.Write(0, padding);
    WholeBytes(|written|, padding);
    assert opb.Rest() == HeaderBits(s, channels) + ToBits(0, padding);
    result := Unpack(channels, unpackGuess, opb, true, s, ToBits(0, padding));
  }

  lemma WholeBytes(n: nat, padding: nat)
    requires padding == (8 - n % 8) % 8
    ensures (n + padding) % 8 == 0 && padding < 8
  {
  }
}
