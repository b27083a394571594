/** Packets made of codewords from several codebooks, as the floor and residue coders write them. */
module Phrases {
  import opened BitMath
  import opened BitBuffer
  import opened CodeTree
  import opened PrefixMatch
  import opened Codebook
  import RoundTrip

  /** Entry `entry` of book `book`. */
  datatype Token = Token(book: nat, entry: nat)

  /** What both ends of a stream know of its codebooks. A book whose tree is not full has at most one used
      entry. */
  datatype Shelf = Shelf(lens: seq<seq<nat>>, words: seq<seq<nat>>)
  {
    ghost predicate Valid()
    {
      |lens| == |words| && forall i :: 0 <= i < |lens| ==> Sound(lens[i], words[i])
    }

    /** The book has a codeword for the entry, and can decode it. */
    ghost predicate Has(t: Token)
    {
      && t.book < |lens| && t.book < |words| && t.entry < |lens[t.book]| && lens[t.book][t.entry] > 0
      && Complete(lens[t.book], words[t.book])
    }

    /** Nothing can be decoded with this book. */
    ghost predicate Empty(book: nat)
    {
      book < |lens| && Used(lens[book]) == 0
    }

    ghost function Spell(t: Token): seq<bool>
      requires Valid() && t.book < |lens|
    {
      EntryBits(lens[t.book], words[t.book], t.entry)
    }
  }

  ghost predicate Sound(lens: seq<nat>, words: seq<nat>)
  {
    Canonical(lens, words) && (Used(lens) <= 1 || Complete(lens, words))
  }

  /** All tokens are of books on the shelf. */
  ghost predicate Booked(shelf: Shelf, ts: seq<Token>)
  {
    forall i :: 0 <= i < |ts| ==> ts[i].book < |shelf.lens|
  }

  /** All tokens can be decoded. */
  ghost predicate Known(shelf: Shelf, ts: seq<Token>)
  {
    forall i :: 0 <= i < |ts| ==> shelf.Has(ts[i])
  }

  lemma KnownBooked(shelf: Shelf, ts: seq<Token>)
    requires Known(shelf, ts)
    ensures Booked(shelf, ts)
  {
    forall i | 0 <= i < |ts|
      ensures ts[i].book < |shelf.lens|
    {
      assert shelf.Has(ts[i]);
    }
  }

  /** The bits of a list of tokens; a token without a codeword has none. */
  ghost function Spelled(shelf: Shelf, ts: seq<Token>): seq<bool>
    requires shelf.Valid() && Booked(shelf, ts)
  {
    if ts == [] then [] else Spelled(shelf, ts[..|ts| - 1]) + shelf.Spell(ts[|ts| - 1])
  }

  lemma {:induction false} SpelledConcat(shelf: Shelf, a: seq<Token>, b: seq<Token>)
    requires shelf.Valid() && Booked(shelf, a) && Booked(shelf, b)
    ensures Booked(shelf, a + b) && Spelled(shelf, a + b) == Spelled(shelf, a) + Spelled(shelf, b)
  {
    hide Shelf.Valid, Shelf.Spell;
    if b == [] {
      assert a + b == a;
      assert Spelled(shelf, a) + [] == Spelled(shelf, a);
    } else {
      var front, last := b[..|b| - 1], b[|b| - 1];
      SpelledConcat(shelf, a, front);
      assert (a + b)[..|a + b| - 1] == a + front;
      Regroup(Spelled(shelf, a), Spelled(shelf, front), shelf.Spell(last));
    }
  }

  /** After `start` the packet holds what was said. */
  ghost predicate Gone(shelf: Shelf, said: seq<Token>, bits: seq<bool>, start: seq<bool>)
  {
    shelf.Valid() && Booked(shelf, said) && bits == start + Spelled(shelf, said)
  }

  /** The packet goes on with the tokens `ts`, all of which can be decoded, and then `tail`. */
  ghost predicate Coming(shelf: Shelf, ts: seq<Token>, bits: seq<bool>, tail: seq<bool>)
  {
    shelf.Valid() && Known(shelf, ts) && Booked(shelf, ts) && bits == Spelled(shelf, ts) + tail
  }

  /** Why a codeword may be missing: the packet is at its end, or some book has none. */
  ghost predicate Stopped(shelf: Shelf, rest: seq<bool>)
  {
    rest == [] || exists k: nat :: shelf.Empty(k)
  }

  /** The codeword of entry `e` stands at the front of `bits`, and `rest` after it. */
  ghost predicate Heard(shelf: Shelf, book: nat, e: nat, bits: seq<bool>, rest: seq<bool>)
  {
    book < |shelf.lens| && book < |shelf.words| && RoundTrip.Found(shelf.lens[book], shelf.words[book], e, bits, rest)
  }

  /** A packet that goes on with a codeword is heard to do so, as this and no other entry. */
  lemma HeardIsSpelled(shelf: Shelf, book: nat, e: nat, bits: seq<bool>, rest: seq<bool>)
    requires shelf.Valid() && shelf.Has(Token(book, e)) && Heard(shelf, book, e, bits, rest)
    ensures bits == shelf.Spell(Token(book, e)) + rest
    ensures forall f: nat, rest' :: Heard(shelf, book, f, bits, rest') ==> f == e && rest' == rest
  {
    hide Complete, Canonical, MsbBits;
    BooksAgree(shelf, book);
    var lens, words := shelf.lens[book], shelf.words[book];
    var n := lens[e];
    assert bits[..n] + bits[n..] == bits;
    forall f: nat, rest' | Heard(shelf, book, f, bits, rest')
      ensures f == e && rest' == rest
    {
      MatchUnique(lens, words, bits, f, e);
    }
  }

  lemma NothingGone(shelf: Shelf, bits: seq<bool>)
    requires shelf.Valid()
    ensures Gone(shelf, [], bits, bits)
  {
    assert bits + [] == bits;
  }

  lemma NothingComing(shelf: Shelf, bits: seq<bool>, tail: seq<bool>)
    requires Coming(shelf, [], bits, tail)
    ensures bits == tail
  {
    assert [] + tail == tail;
  }

  /** What was written, if it can be decoded, is what comes. */
  lemma GoneIsComing(shelf: Shelf, ts: seq<Token>, bits: seq<bool>, start: seq<bool>, tail: seq<bool>)
    requires Gone(shelf, ts, bits, start) && Known(shelf, ts)
    ensures |start| <= |bits| && Coming(shelf, ts, bits[|start|..] + tail, tail)
  {
    assert bits[|start|..] == Spelled(shelf, ts);
  }

  ghost predicate Encoders(books: seq<EncodeBook>, shelf: Shelf)
    reads books, set k | 0 <= k < |books| :: books[k].codelist
  {
    && shelf.Valid() && |books| == |shelf.lens|
    && forall k :: 0 <= k < |books| ==>
         && books[k].Valid() && books[k].codelist != null
         && books[k].lens == shelf.lens[k] && books[k].words == shelf.words[k]
  }

  ghost predicate Decoders(books: seq<DecodeBook>, shelf: Shelf)
    reads books, set k | 0 <= k < |books| :: books[k].codelist, set k | 0 <= k < |books| :: books[k].decIndex
    reads set k | 0 <= k < |books| :: books[k].decCodelengths, set k | 0 <= k < |books| :: books[k].decFirsttable
  {
    && shelf.Valid() && |books| == |shelf.lens|
    && forall k :: 0 <= k < |books| ==> books[k].Valid() && books[k].lens == shelf.lens[k]
  }

  /** Write one codeword, if the entry has one. */
  method Put(books: seq<EncodeBook>, ghost shelf: Shelf, book: nat, entry: nat, b: OggPackBuffer,
             ghost said: seq<Token>,
             ghost start: seq<bool>)
    requires Encoders(books, shelf) && book < |shelf.lens| && Gone(shelf, said, b.bits, start)
    modifies b
    ensures Encoders(books, shelf) && b.pos == old(b.pos) && Gone(shelf, said + [Token(book, entry)], b.bits, start)
  {
    hide EntryBits, Complete, EncodeBook.Valid, Sound;
    BooksAgree(shelf, book);
    var n := books[book].Encode(entry, b);
    ghost var t := Token(book, entry);
    ghost var more := said + [t];
    assert more[..|more| - 1] == said;
    Regroup(start, Spelled(shelf, said), shelf.Spell(t));
  }

  lemma BooksAgree(shelf: Shelf, k: nat)
    requires shelf.Valid() && k < |shelf.lens|
    ensures Canonical(shelf.lens[k], shelf.words[k]) && |shelf.words[k]| == |shelf.lens[k]|
  {
    assert Sound(shelf.lens[k], shelf.words[k]);
  }

  /** Read a codeword; the packet may be known to go on with the tokens `ts`. */
  method Get(books: seq<DecodeBook>, ghost shelf: Shelf, book: nat, b: OggPackBuffer, ghost known: bool,
             ghost ts: seq<Token>,
             ghost tail: seq<bool>) returns (entry: int)
    requires Decoders(books, shelf) && b.Valid() && book < |shelf.lens|
    requires known ==> Coming(shelf, ts, b.Rest(), tail) && ts != [] && ts[0].book == book
    modifies b
    ensures Decoders(books, shelf) && b.Valid() && b.bits == old(b.bits) && -1 <= entry < |shelf.lens[book]|
    ensures entry >= 0 ==> shelf.lens[book][entry] > 0
    ensures entry == -1 ==> Stopped(shelf, b.Rest()) && (b.Rest() == [] || shelf.Empty(book))
    ensures entry >= 0 ==> Heard(shelf, book, entry, old(b.Rest()), b.Rest())
    ensures known ==> entry == ts[0].entry && Coming(shelf, ts[1..], b.Rest(), tail)
  {
    hide EntryBits, Complete, Canonical, DecodeBook.Valid, Sound, Used, RoundTrip.Found;
    ghost var was := b.Rest();
    ghost var more := if known then ts[1..] else [];
    if known {
      ghost var t := ts[0];
      assert ts == [t] + more && shelf.Has(t);
      assert Booked(shelf, [t]) && Known(shelf, more) && Booked(shelf, more);
      SpelledConcat(shelf, [t], more);
      SpelledOne(shelf, t);
      Regroup(shelf.Spell(t), Spelled(shelf, more), tail);
    }
    BooksAgree(shelf, book);
    entry := RoundTrip.DecodeNext(books[book], b, known, if known then ts[0].entry else 0, shelf.words[book],
                                  if known then Spelled(shelf, more) + tail else []);
    if entry >= 0 {
      RoundTrip.BookFacts(books[book]);
      RoundTrip.FoundSame(shelf.lens[book], books[book].words, shelf.words[book], entry, was, b.Rest());
    }
    assert entry == -1 ==> b.Rest() == [] || shelf.Empty(book);
  }

  lemma SpelledOne(shelf: Shelf, t: Token)
    requires shelf.Valid() && t.book < |shelf.lens| && Booked(shelf, [t])
    ensures Spelled(shelf, [t]) == shelf.Spell(t)
  {
    assert [t][..0] == [];
    assert [] + shelf.Spell(t) == shelf.Spell(t);
  }
}
