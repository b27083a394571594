/** Decoding inverts encoding, for every length list that fills the tree. */
module RoundTrip {
  import opened Wrappers
  import opened BitMath
  import opened BitBuffer
  import opened CodeTree
  import opened PrefixMatch
  import opened Codebook
  import DecodeTables
  import SharedBook

  ghost predicate AllUsed(lens: seq<nat>, es: seq<nat>)
  {
    forall i :: 0 <= i < |es| ==> es[i] < |lens| && lens[es[i]] > 0
  }

  /** The bits of a run of entries. */
  ghost function Written(lens: seq<nat>, words: seq<nat>, es: seq<nat>): seq<bool>
    requires |words| == |lens|
  {
    if es == [] then [] else EntryBits(lens, words, es[0]) + Written(lens, words, es[1..])
  }

  lemma {:induction false} WrittenAppend(lens: seq<nat>, words: seq<nat>, es: seq<nat>, n: nat)
    requires |words| == |lens| && n < |es|
    ensures Written(lens, words, es[..n + 1]) == Written(lens, words, es[..n]) + EntryBits(lens, words, es[n])
  {
    hide EntryBits;
    var a, b := es[..n], es[..n + 1];
    if n == 0 {
      assert b[1..] == [];
    } else {
      var first := EntryBits(lens, words, es[0]);
      assert a[1..] == es[1..][..n - 1] && b[1..] == es[1..][..n];
      WrittenAppend(lens, words, es[1..], n - 1);
      Regroup(first, Written(lens, words, a[1..]), EntryBits(lens, words, es[n]));
    }
  }

  /** Whatever follows an entry's bits, that entry and no other is found at the front. */
  lemma FrontIsOnlyMatch(lens: seq<nat>, words: seq<nat>, e: nat, tail: seq<bool>)
    requires Canonical(lens, words) && e < |lens| && lens[e] > 0
    ensures Matches(lens, words, EntryBits(lens, words, e) + tail, e)
    ensures forall k: nat :: Matches(lens, words, EntryBits(lens, words, e) + tail, k) ==> k == e
  {
    var b := EntryBits(lens, words, e) + tail;
    assert MsbBits(words[e], lens[e]) <= b;
    forall k: nat | Matches(lens, words, b, k)
      ensures k == e
    {
      MatchUnique(lens, words, b, k, e);
    }
  }

  /** Two sides that start from the same lengths write an entry the same way. */
  lemma SameBits(lens: seq<nat>, words: seq<nat>, words': seq<nat>, e: nat)
    requires Canonical(lens, words) && Canonical(lens, words') && e < |lens|
    ensures EntryBits(lens, words, e) == EntryBits(lens, words', e)
  {
    CanonicalUnique(lens, words, words', |lens|);
  }

  method EncodeRun(book: EncodeBook, es: seq<nat>, b: OggPackBuffer)
    requires book.Valid() && book.codelist != null && |book.words| == |book.lens|
    modifies b
    ensures b.bits == old(b.bits) + Written(book.lens, book.words, es) && b.pos == old(b.pos)
  {
    ghost var start, lens, words := b.bits, book.lens, book.words;
    hide EntryBits, SharedBook.Packed, Canonical;
    assert start + [] == start;
    for i := 0 to |es|
      invariant b.pos == old(b.pos) && b.bits == start + Written(lens, words, es[..i])
    {
      var n := book.Encode(es[i], b);
      WrittenAppend(lens, words, es, i);
      Regroup(start, Written(lens, words, es[..i]), EntryBits(lens, words, es[i]));
    }
    assert es[..|es|] == es;
  }

  /** The next entry, if the book has any; where the packet is known to go on with entry `e`'s codeword, `e`. */
  method DecodeNext(book: DecodeBook, b: OggPackBuffer, ghost known: bool, ghost e: nat, ghost words: seq<nat>,
                    ghost more: seq<bool>)
      returns (entry: int)
    requires book.Valid() && b.Valid()
    requires known ==>
      && Complete(book.lens, words) && e < |book.lens| && book.lens[e] > 0
      && b.Rest() == EntryBits(book.lens, words, e) + more
    modifies b
    ensures b.Valid() && b.bits == old(b.bits) && -1 <= entry < |book.lens|
    ensures entry >= 0 ==> book.lens[entry] > 0
    ensures entry == -1 ==> b.Rest() == [] || Used(book.lens) == 0
    ensures entry >= 0 ==> Found(book.lens, book.words, entry, old(b.Rest()), b.Rest())
    ensures known ==> entry == e && b.Rest() == more
  {
    hide Canonical, Complete, DecodeTables.Tables, EntryBits, MsbBits, Used;
    ghost var was, lens, ws := b.Rest(), book.lens, book.words;
    BookFacts(book);
    if known {
      CompleteBoth(lens, words, ws);
      SameBits(lens, words, ws, e);
      FrontIsOnlyMatch(lens, ws, e, more);
      assert was == EntryBits(lens, ws, e) + more;
    }
    entry := book.Decode(b);
    if entry >= 0 {
      assert b.Rest() == was[lens[entry]..];
    }
  }

  /** The codeword of entry `e` stands at the front of `bits`, and `rest` after it; a book with one entry only goes by
      its length. */
  ghost predicate Found(lens: seq<nat>, words: seq<nat>, e: nat, bits: seq<bool>, rest: seq<bool>)
  {
    && e < |lens| == |words| && 0 < lens[e] <= |bits| && rest == bits[lens[e]..]
    && (Complete(lens, words) ==> Matches(lens, words, bits, e))
  }

  lemma FoundSame(lens: seq<nat>, words: seq<nat>, words': seq<nat>, e: nat, bits: seq<bool>, rest: seq<bool>)
    requires Canonical(lens, words) && Canonical(lens, words') && Found(lens, words, e, bits, rest)
    ensures Found(lens, words', e, bits, rest)
  {
    hide Canonical, Kraft, MsbBits;
    CanonicalLength(lens, words);
    CanonicalLength(lens, words');
    CanonicalUnique(lens, words, words', |lens|);
  }

  lemma CanonicalLength(lens: seq<nat>, words: seq<nat>)
    requires Canonical(lens, words)
    ensures |words| == |lens|
  {
  }

  lemma BookFacts(book: DecodeBook)
    requires book.Valid()
    ensures Canonical(book.lens, book.words) && |book.words| == |book.lens| && book.usedEntries == Used(book.lens)
  {
    hide DecodeTables.Tables, Used;
  }

  lemma CompleteBoth(lens: seq<nat>, words: seq<nat>, words': seq<nat>)
    requires Complete(lens, words) && Canonical(lens, words')
    ensures Complete(lens, words') && Canonical(lens, words) && |words| == |lens| == |words'|
  {
    hide Kraft;
  }

  method DecodeRun(book: DecodeBook, b: OggPackBuffer, count: nat, ghost es: seq<nat>, ghost words: seq<nat>,
                   ghost tail: seq<bool>)
      returns (out: seq<int>)
    requires book.Valid() && b.Valid() && Complete(book.lens, words) && |words| == |book.lens|
    requires |es| == count && AllUsed(book.lens, es)
    requires b.Rest() == Written(book.lens, words, es) + tail
    modifies b
    ensures b.Valid() && b.bits == old(b.bits)
    ensures out == es && b.Rest() == tail
  {
    hide Complete, DecodeTables.Tables, EntryBits;
    ghost var lens := book.lens;
    out := [];
    for i := 0 to count
      invariant b.Valid() && b.bits == old(b.bits)
      invariant out == es[..i] && b.Rest() == Written(lens, words, es[i..]) + tail
    {
      ghost var more := Written(lens, words, es[i + 1..]);
      assert es[i..][1..] == es[i + 1..];
      Regroup(EntryBits(lens, words, es[i]), more, tail);
      var entry := DecodeNext(book, b, true, es[i], words, more + tail);
      out := out + [entry];
    }
    assert [] + tail == tail;
  }

  /** The two sides of a book with a full tree. */
  method BothSides(lengthlist: seq<nat>) returns (enc: EncodeBook, dec: DecodeBook)
    requires ValidLengths(lengthlist) && Kraft(lengthlist, |lengthlist|) == WORD
    ensures enc.Valid() && enc.codelist != null && enc.lens == lengthlist && |enc.words| == |lengthlist|
    ensures dec.Valid() && dec.lens == lengthlist && Complete(lengthlist, enc.words)
  {
    hide DecodeTables.Tables, SharedBook.Packed, Kraft, ValidLengths;
    enc := new EncodeBook.InitEncode(lengthlist);
    assert Canonical(lengthlist, enc.words);
    dec := new DecodeBook();
    var ok := dec.InitDecode(lengthlist, None);
  }

  /** Entries written with the encode-side book of `lengthlist` come back from its decode-side book,
      from exactly the bits they were written to, whatever stands before and after them. */
  method RoundTrip(lengthlist: seq<nat>, es: seq<nat>, head: seq<bool>, tail: seq<bool>)
      returns (out: seq<int>, b: OggPackBuffer)
    requires ValidLengths(lengthlist) && Kraft(lengthlist, |lengthlist|) == WORD && AllUsed(lengthlist, es)
    ensures out == es && b.Valid() && b.Rest() == tail
  {
    hide EncodeBook.Valid, DecodeBook.Valid, Complete, Kraft, ValidLengths, AllUsed, Written;
    var enc, dec := BothSides(lengthlist);
    ghost var words := enc.words;
    b := new OggPackBuffer(head);
    b.Adv(|head|);
    EncodeRun(enc, es, b);
    b.bits := b.bits + tail;
    assert b.Rest() == Written(lengthlist, words, es) + tail;
    out := DecodeRun(dec, b, |es|, es, words, tail);
  }
}
