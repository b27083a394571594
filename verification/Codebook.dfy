/** Codebooks: encoding an entry, building the decode tables, and decoding an entry. */
module Codebook {
  import opened Wrappers
  import opened BitMath
  import opened BitBuffer
  import opened CodeTree
  import opened PrefixMatch
  import opened DecodeTables
  import opened SharedBook
  import opened BuildTables
  import opened ValueList

  class DecodeBook {
    var usedEntries: nat
    var valuelist: array<seq<int>>
    var codelist: array<nat>
    var decIndex: array<nat>
    var decCodelengths: array<nat>
    var decFirsttable: array<nat>
    var decFirsttablen: nat
    var decMaxlength: nat
    ghost var lens: seq<nat>
    ghost var words: seq<nat>

    ghost predicate Valid()
      reads this, codelist, decIndex, decCodelengths, decFirsttable
    {
      && Canonical(lens, words) && usedEntries == Used(lens) == codelist.Length
      && (usedEntries > 0 ==>
        && Tables(lens, words, codelist[..], decIndex[..], decCodelengths[..], decFirsttablen, decFirsttable[..],
                  decMaxlength))
    }

    constructor ()
      ensures Valid() && usedEntries == 0
    {
      codelist, decIndex, decCodelengths, decFirsttable := new nat[0], new nat[0], new nat[0], new nat[0];
      valuelist := new seq<int>[0];
      usedEntries, decFirsttablen, decMaxlength := 0, 0, 0;
      lens, words := [], [];
    }

    /** The values are listed: at the place of each codeword the vector of its entry. */
    ghost predicate Lists(q: Quantised)
      reads this, decIndex, valuelist
    {
      && valuelist.Length == usedEntries == decIndex.Length && q.Serves(|lens|)
      && forall p :: 0 <= p < usedEntries ==> decIndex[p] < |lens| && valuelist[p] == q.Vector(|lens|, decIndex[p])
    }

    /** Build the tables; false, and an empty book, when the lengths describe no valid tree. */
    method InitDecode(lengthlist: seq<nat>, values: Option<Quantised>) returns (ok: bool)
      requires ValidLengths(lengthlist) && (values.Some? ==> values.value.Serves(|lengthlist|))
      modifies this
      ensures Valid() && fresh({codelist, decIndex, decCodelengths, decFirsttable})
      ensures ok <==> Used(lengthlist) <= 1 || Kraft(lengthlist, |lengthlist|) == WORD
      ensures lens == if ok then lengthlist else []
      ensures ok && values.Some? ==> Lists(values.value)
    {
      hide Canonical, Tables, Used, Kraft, ValidLengths, Sorting, Quantised.Serves, Quantised.Vector;
      Clear();
      var n := CountUsed(lengthlist);
      if n == 0 {
        lens, words := lengthlist, seq(|lengthlist|, i => 0);
        NoUsedEntry(lengthlist);
        UnusedCanonical(lengthlist, words);
        return true;
      }
      var built, codes, index, lengths, tl, table, longest, sortindex;
      ghost var order, ws;
      built, codes, index, lengths, tl, table, longest, sortindex, order, ws := BuildAll(lengthlist, n);
      if built {
        var list := ListValues(lengthlist, values, sortindex, order, index);
        Adopt(lengthlist, ws, codes, list, index, lengths, tl, table, longest);
      }
      return built;
    }

    /** Install finished tables. */
    method Adopt(lengthlist: seq<nat>, ghost ws: seq<nat>, codes: array<nat>, list: array<seq<int>>, index: array<nat>,
                 lengths: array<nat>, tl: nat, table: array<nat>, longest: nat)
      requires Tables(lengthlist, ws, codes[..], index[..], lengths[..], tl, table[..], longest)
      modifies this
      ensures Valid() && lens == lengthlist && usedEntries == codes.Length && valuelist == list
      ensures codelist == codes && decIndex == index && decCodelengths == lengths && decFirsttable == table
    {
      hide Canonical, Tables, Used;
      TableShape(lengthlist, ws, codes[..], index[..], lengths[..], tl, table[..], longest);
      codelist, valuelist, decIndex, decCodelengths, decFirsttable := codes, list, index, lengths, table;
      usedEntries, decFirsttablen, decMaxlength, lens, words := codes.Length, tl, longest, lengthlist, ws;
    }

    /** Back to the empty book. */
    method Clear()
      modifies this
      ensures Valid() && usedEntries == 0 && lens == [] && fresh({codelist, decIndex, decCodelengths, decFirsttable})
      ensures valuelist.Length == 0 == decIndex.Length
    {
      hide Tables, Canonical, Used;
      EmptyBook();
      var none := new nat[0];
      codelist, decIndex, decCodelengths, decFirsttable := none, none, none, none;
      valuelist := new seq<int>[0];
      usedEntries, decFirsttablen, decMaxlength := 0, 0, 0;
      lens, words := [], [];
    }

    /** The sorted position of the next codeword in the packet, or -1. */
    method DecodePackedEntryNumber(b: OggPackBuffer) returns (packed: int)
      requires Valid() && usedEntries > 0 && b.Valid()
      modifies b
      ensures b.Valid() && b.bits == old(b.bits)
      ensures Answer(lens, words, decIndex[..], decCodelengths[..], old(b.Rest()), packed, b.pos - old(b.pos))
    {
      hide DecodeBook.Valid, Answer;
      var hit, lo, hi := FirstStage(b);
      if hit >= 0 {
        b.Adv(decCodelengths[hit]);
        return hit;
      }
      var bits;
      packed, bits := SecondStage(b, lo, hi);
      b.Adv(bits);
    }

    /** Bisect between the bounds the first table gave: the position, or -1, and how many bits to move on. */
    method SecondStage(b: OggPackBuffer, from: nat, to: nat) returns (packed: int, bits: nat)
      requires Valid() && usedEntries > 0 && b.Valid()
      requires StartsAt(codelist[..], decFirsttablen, decFirsttable[..], b.Rest(), from, to)
      ensures bits <= |b.Rest()| && Answer(lens, words, decIndex[..], decCodelengths[..], b.Rest(), packed, bits)
    {
      hide Tables, Answer, Canonical, Complete, Leaf, FromBits, Reverse, Increasing, Floor;
      ghost var rest, codes, index, lengths := b.Rest(), codelist[..], decIndex[..], decCodelengths[..];
      ghost var table := decFirsttable[..];
      TableShape(lens, words, codes, index, lengths, decFirsttablen, table, decMaxlength);
      var read, lok := LookUpTo(b, decMaxlength);
      if lok < 0 {
        EmptyAnswer(lens, words, codes, index, lengths, decFirsttablen, table, decMaxlength);
        return -1, 0;
      }
      var testword := Reverse(lok, MAXLEN);
      LookedUpLeaf(rest[..read]);
      StartBracket(lens, words, codes, index, lengths, decFirsttablen, table, decMaxlength, rest, read, from, to);
      var lo := Bisect(codelist, from, to, testword);
      SearchAnswer(lens, words, codes, index, lengths, decFirsttablen, table, decMaxlength, rest, read, lo);
      if decCodelengths[lo] <= read {
        return lo, decCodelengths[lo];
      }
      return -1, read;
    }

    /** The next entry number in the packet, or -1 when the packet holds no further codeword. */
    method Decode(b: OggPackBuffer) returns (entry: int)
      requires Valid() && b.Valid()
      modifies b
      ensures b.Valid() && b.bits == old(b.bits) && old(b.pos) <= b.pos
      ensures usedEntries == 0 ==> entry == -1 && b.pos == old(b.pos)
      ensures Complete(lens, words) ==>
        if entry >= 0 then Matches(lens, words, old(b.Rest()), entry) && b.pos == old(b.pos) + lens[entry]
        else entry == -1 && b.pos == |b.bits| && forall e :: !Matches(lens, words, old(b.Rest()), e)
      ensures usedEntries == 1 ==>
        if entry >= 0 then entry < |lens| && lens[entry] > 0 && b.pos == old(b.pos) + lens[entry]
        else
          && entry == -1 && b.pos == |b.bits|
          && forall e :: 0 <= e < |lens| && lens[e] > 0 ==> |old(b.Rest())| < lens[e]
      ensures usedEntries > 1 ==> Complete(lens, words)
    {
      if usedEntries > 0 {
        ghost var rest := b.Rest();
        var packed := DecodePackedEntryNumber(b);
        if usedEntries == 1 {
          OnlyEntry(lens, words, codelist[..], decIndex[..], decCodelengths[..]);
        }
        if packed >= 0 {
          assert Names(lens, words, codelist[..], decIndex[..], decCodelengths[..], packed);
          return decIndex[packed];
        }
      } else {
        if Complete(lens, words) {
          CompleteIsUsed(lens, words);
        }
      }
      return -1;
    }

    /** Consult the first table: a direct hit, or where the bisection has to start. */
    method FirstStage(b: OggPackBuffer) returns (hit: int, lo: int, hi: int)
      requires Valid() && usedEntries > 0 && b.Valid()
      ensures -1 <= hit < decCodelengths.Length
      ensures hit >= 0 ==> decCodelengths[hit] <= |b.Rest()|
      ensures hit >= 0 ==> Answer(lens, words, decIndex[..], decCodelengths[..], b.Rest(), hit, decCodelengths[hit])
      ensures hit < 0 ==>
        0 <= lo && 0 <= hi && StartsAt(codelist[..], decFirsttablen, decFirsttable[..], b.Rest(), lo, hi)
    {
      hide Tables, Answer, Canonical, Complete, FromBits;
      ghost var rest, codes, index, lengths, table := b.Rest(), codelist[..], decIndex[..], decCodelengths[..],
                                                      decFirsttable[..];
      TableShape(lens, words, codes, index, lengths, decFirsttablen, table, decMaxlength);
      var lok := b.Look(decFirsttablen);
      if lok < 0 {
        return -1, 0, usedEntries;
      }
      FromBitsBound(rest[..decFirsttablen]);
      var entry := decFirsttable[lok];
      CellShape(lens, words, codes, index, lengths, decFirsttablen, table, decMaxlength, lok);
      if entry >= HINT {
        return -1, ((entry - HINT) / 0x8000) % 0x8000, usedEntries - (entry - HINT) % 0x8000;
      }
      DirectAnswer(lens, words, codes, index, lengths, decFirsttablen, table, decMaxlength, rest);
      return entry - 1, 0, 0;
    }
  }

  lemma EmptyBook()
    ensures Canonical([], []) && Used([]) == 0
  {
  }

  /** The list of values, at the sorted places of the codewords; none for a book without values. */
  method ListValues(lens: seq<nat>, values: Option<Quantised>, sortindex: array<nat>, ghost order: seq<nat>,
                    index: array<nat>)
      returns (list: array<seq<int>>)
    requires Sorting(lens, order, sortindex[..], index[..]) && (values.Some? ==> values.value.Serves(|lens|))
    ensures fresh(list) && index.Length == Used(lens)
    ensures values.Some? ==>
      && list.Length == index.Length
      && forall p :: 0 <= p < list.Length ==>
           index[p] < |lens| && list[p] == values.value.Vector(|lens|, index[p])
  {
    hide Quantised.Serves, Quantised.Vector;
    if values == None {
      list := new seq<int>[0];
      return;
    }
    list := Unquantize(lens, values.value, sortindex, order);
    forall p | 0 <= p < list.Length
      ensures index[p] < |lens| && list[p] == values.value.Vector(|lens|, index[p])
    {
      ListedByEntry(lens, order, sortindex[..], list[..], values.value.Vectors(|lens|), index[..], p);
    }
  }

  /** The entry of a one-entry book is the only one with a length. */
  lemma OnlyEntry(lens: seq<nat>, words: seq<nat>, codelist: seq<nat>, index: seq<nat>, lengths: seq<nat>)
    requires ValidLengths(lens) && |words| == |lens| && Sorted(lens, words, codelist, index, lengths) && Used(lens) == 1
    ensures forall e :: 0 <= e < |lens| && lens[e] > 0 ==> lens[e] == lengths[0]
  {
    assert Names(lens, words, codelist, index, lengths, 0);
  }

  lemma CompleteIsUsed(lens: seq<nat>, words: seq<nat>)
    requires Complete(lens, words)
    ensures Used(lens) > 0
  {
    if Used(lens) == 0 {
      var k := EveryLeafOwned(lens, words, 0);
      NoUsedEntry(lens);
    }
  }

  lemma UnusedCanonical(lens: seq<nat>, words: seq<nat>)
    requires ValidLengths(lens) && |words| == |lens| && forall e :: 0 <= e < |lens| ==> lens[e] == 0
    ensures Canonical(lens, words)
  {
  }

  method CountUsed(lens: seq<nat>) returns (n: nat)
    ensures n == Used(lens)
  {
    n := 0;
    for i := 0 to |lens|
      invariant n == Used(lens[..i])
    {
      UsedStep(lens, i);
      if lens[i] > 0 {
        n := n + 1;
      }
    }
    assert lens[..|lens|] == lens;
  }

  /** Look at `most` bits, or near the end of the packet at as many as are left. */
  method LookUpTo(b: OggPackBuffer, most: nat) returns (read: nat, lok: int)
    requires b.Valid() && most >= 1
    ensures 1 <= read <= most && (read < most ==> |b.Rest()| <= read)
    ensures lok == if read <= |b.Rest()| then FromBits(b.Rest()[..read]) else -1
    ensures lok < 0 ==> |b.Rest()| == 0
  {
    read := most;
    lok := b.Look(read);
    while lok < 0 && read > 1
      invariant 1 <= read <= most && (read < most ==> |b.Rest()| <= read)
      invariant lok == if read <= |b.Rest()| then FromBits(b.Rest()[..read]) else -1
    {
      read := read - 1;
      lok := b.Look(read);
    }
  }

  /** Bisection for the last codeword at or left of `testword`. */
  method Bisect(codelist: array<nat>, from: nat, to: nat, testword: nat) returns (lo: nat)
    requires from < to <= codelist.Length
    ensures from <= lo < to
    ensures
      && Increasing(codelist[..]) && codelist[from] <= testword
      && (to < codelist.Length ==> testword < codelist[to])
      ==> Floor(codelist[..], testword, lo)
  {
    var hi := to;
    lo := from;
    while hi - lo > 1
      invariant from <= lo < hi <= to
      invariant codelist[from] <= testword ==> codelist[lo] <= testword
      invariant Increasing(codelist[..]) && (to < codelist.Length ==> testword < codelist[to])
        ==> (hi < codelist.Length ==> testword < codelist[hi])
    {
      var p := (hi - lo) / 2;
      if codelist[lo + p] > testword {
        assert codelist[..][lo + p] > testword;
        hi := hi - p;
        assert hi < codelist.Length ==> codelist[..][hi] == codelist[hi];
      } else {
        lo := lo + p;
      }
    }
  }

  // ---------------------------------------------------------------------------------------------
  // Encoding
  // ---------------------------------------------------------------------------------------------

  /** The bits an entry is written as: its codeword, root to leaf. */
  ghost function EntryBits(lens: seq<nat>, words: seq<nat>, a: int): (b: seq<bool>)
    requires |words| == |lens|
    ensures |b| == if 0 <= a < |lens| then lens[a] else 0
  {
    if 0 <= a < |lens| then MsbBits(words[a], lens[a]) else []
  }

  class EncodeBook {
    var lens: seq<nat>
    var codelist: array?<nat>
    ghost var words: seq<nat>

    ghost predicate Valid()
      reads this, codelist
    {
      codelist != null ==> Canonical(lens, words) && Packed(lens, false, words, |lens|, codelist[..])
                           && codelist.Length == |lens|
    }

    constructor InitEncode(lengthlist: seq<nat>)
      requires ValidLengths(lengthlist)
      ensures Valid() && lens == lengthlist
      ensures codelist != null <==> Used(lengthlist) == 0 || Kraft(lengthlist, |lengthlist|) == WORD
    {
      var list;
      ghost var ws;
      list, ws := MakeWords(lengthlist, 0);
      lens, codelist, words := lengthlist, list, ws;
    }

    /** Write entry `a`'s codeword; nothing for a number outside the book. */
    method Encode(a: int, b: OggPackBuffer) returns (n: nat)
      requires Valid() && codelist != null
      modifies b
      ensures b.bits == old(b.bits) + EntryBits(lens, words, a) && b.pos == old(b.pos)
      ensures n == |EntryBits(lens, words, a)|
    {
      if a < 0 || a >= |lens| {
        assert b.bits == b.bits + [];
        return 0;
      }
      if lens[a] > 0 {
        assert codelist[..][Slot(lens, false, a)] == Reverse(words[a], lens[a]);
        ReverseBits(words[a], lens[a]);
      }
      b.Write(codelist[a], lens[a]);
      return lens[a];
    }
  }
}
