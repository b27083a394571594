/** A floor there and back: the curve the encoder drew is the one the decoder applies. */
module FloorRoundTrip {
  import opened BitMath
  import opened BitBuffer
  import opened Codebook
  import PrefixMatch
  import Lattice
  import opened Phrases
  import opened Lines
  import opened Floor1
  import opened Floor1Curve
  import opened Floor1Packet

  /** Code a floor and draw it; without posts the mask is silent. */
  method Encode(info: FloorInfo, look: Look, order: seq<nat>, entries: seq<nat>, books: seq<EncodeBook>,
                b: OggPackBuffer, post: array?<int>, n: nat, ilogmask: array<int>, ghost shelf: Shelf)
      returns (coded: bool)
    requires look.Valid() && info.Valid(|entries|) && |look.postlist| == 2 + info.Values(0)
    requires shelf.Valid() && Entries(shelf, entries) && Encoders(books, shelf)
    requires Ordered(look.postlist, order) && post != ilogmask && n <= ilogmask.Length
    requires post != null ==> Postable(look, post[..])
    modifies b, post, ilogmask
    ensures b.pos == old(b.pos) && coded == (post != null)
    ensures post == null ==> b.bits == old(b.bits) + [false] && forall x :: 0 <= x < n ==> ilogmask[x] == 0
    ensures post != null ==>
      var quantized := Quantized(look.mult, old(post[..]));
      && PostsOk(look, quantized) && Shaped(info, shelf, entries, look, Outs(look, quantized))
      && b.bits == old(b.bits) + FloorBits(info, shelf, entries, look, Outs(look, quantized))
      && forall x :: 0 <= x < n ==>
           ilogmask[x] == Curve(look.postlist, look.mult, order, SendRun(look, quantized, |quantized|), x)
  {
    hide Encoders, Look.Valid, Outs, SendRun, FloorInfo.Valid, FloorInfo.Values, Shelf.Valid, FloorBits, Curve;
    hide Shaped, PostsOk, Postable, Ordered;
    ghost var given := if post != null then post[..] else [];
    if post != null {
      MultOk(look);
      PostableMeans(info, shelf, entries, look, given);
    }
    coded := EncodeFloor(info, look, entries, books, b, post, shelf);
    if coded {
      ghost var quantized := Quantized(look.mult, given);
      LengthsAre(look, quantized);
      FinalPostsOk(look, quantized, |quantized|);
      LengthsAre(look, post[..]);
      DrawMask(look, order, post, n, ilogmask);
    } else {
      for x := 0 to n
        invariant forall k :: 0 <= k < x ==> ilogmask[k] == 0
        invariant b.bits == old(b.bits) + [false] && b.pos == old(b.pos)
      {
        ilogmask[x] := 0;
      }
    }
  }

  lemma LengthsAre(look: Look, post: seq<int>)
    requires PostsOk(look, post)
    ensures |post| == |look.postlist|
  {
  }

  /** Apply a decoded floor to the spectrum; without one the spectrum is silent. */
  method Apply(look: Look, order: seq<nat>, memo: array?<int>, n: nat, out: array<real>, table: seq<real>)
      returns (used: bool)
    requires Ordered(look.postlist, order) && |table| == 256 && n <= out.Length
    requires memo != null ==> memo.Length == |look.postlist|
    modifies out
    ensures used == (memo != null)
    ensures memo != null ==>
      forall x :: 0 <= x < n ==> Scaled(look, order, memo[..], table, x, old(out[x]), out[x])
    ensures memo == null ==> forall x :: 0 <= x < n ==> out[x] == 0.0
    ensures forall x :: n <= x < out.Length ==> out[x] == old(out[x])
  {
    hide Ordered, Scaled;
    if memo != null {
      ApplyCurve(look, order, memo, n, out, table);
      return true;
    }
    for x := 0 to n
      invariant forall k :: 0 <= k < x ==> out[k] == 0.0
      invariant forall k :: n <= k < out.Length ==> out[k] == old(out[k])
    {
      out[x] := 0.0;
    }
    used := false;
  }

  lemma ScaledByMask(look: Look, order: seq<nat>, post: seq<int>, mask: seq<int>, n: nat, before: seq<real>,
                     after: seq<real>, table: seq<real>)
    requires Ordered(look.postlist, order) && |post| == |look.postlist|
    requires n <= |mask| && n <= |before| == |after|
    requires forall x :: 0 <= x < n ==> mask[x] == Curve(look.postlist, look.mult, order, post, x)
    requires forall x :: 0 <= x < n ==> Scaled(look, order, post, table, x, before[x], after[x])
    ensures forall x :: 0 <= x < n ==> 0 <= mask[x] < |table| && after[x] == Floored(before[x], table, mask[x])
  {
    hide Curve, Floored, Ordered;
    forall x | 0 <= x < n
      ensures 0 <= mask[x] < |table| && after[x] == Floored(before[x], table, mask[x])
    {
      assert Scaled(look, order, post, table, x, before[x], after[x]);
    }
  }

  // ---------------------------------------------------------------------------------------------
  // Books that can send any floor
  // ---------------------------------------------------------------------------------------------

  /** Every entry of the book has a codeword, and can be decoded. */
  ghost predicate FullBook(shelf: Shelf, b: nat)
  {
    && b < |shelf.lens| && b < |shelf.words| && PrefixMatch.Complete(shelf.lens[b], shelf.words[b])
    && forall e :: 0 <= e < |shelf.lens[b]| ==> shelf.lens[b][e] > 0
  }

  /** A class whose books can code all values below `q`: some sub-book reaches that far, and the class book has an
      entry for each combination of choices. */
  ghost predicate Equipped(c: PartClass, shelf: Shelf, entries: seq<nat>, q: nat)
  {
    && c.Valid(|entries|)
    && (exists l :: 0 <= l < c.Csub() && q <= MaxVal(c, entries, l))
    && (forall l :: 0 <= l < c.Csub() && c.subbook[l] >= 0 ==> FullBook(shelf, c.subbook[l]))
    && (c.subs > 0 ==> FullBook(shelf, c.book) && Lattice.Power(c.Csub(), c.dim) <= entries[c.book])
  }

  lemma {:induction false} FitFound(c: PartClass, entries: seq<nat>, v: int, l: nat, k: nat)
    requires c.Valid(|entries|) && l <= k < c.Csub() && v < MaxVal(c, entries, k)
    ensures FirstFit(c, entries, v, l) <= k
    decreases k - l
  {
    hide PartClass.Csub;
    if l < k {
      FitFound(c, entries, v, l + 1, k);
    }
  }

  ghost predicate Below(vs: seq<int>, q: nat)
  {
    forall k :: 0 <= k < |vs| ==> 0 <= vs[k] < q
  }

  /** The choices of `n` values fit `n` digits. */
  lemma {:induction false} CvalBound(c: PartClass, entries: seq<nat>, vs: seq<int>)
    requires c.Valid(|entries|)
    ensures Cval(c, entries, vs) < Lattice.Power(c.Csub(), |vs|)
  {
    hide PartClass.Csub, Bookas;
    if vs != [] {
      CvalBound(c, entries, vs[1..]);
      MulStep(Cval(c, entries, vs[1..]), Lattice.Power(c.Csub(), |vs| - 1), c.Csub());
      Commute(c.Csub(), Cval(c, entries, vs[1..]));
      Commute(c.Csub(), Lattice.Power(c.Csub(), |vs| - 1));
    }
  }

  lemma Commute(a: nat, b: nat)
    ensures a * b == b * a
  {
  }

  lemma FullHas(shelf: Shelf, b: nat, e: nat)
    requires FullBook(shelf, b) && e < |shelf.lens[b]|
    ensures shelf.Has(Token(b, e))
  {
  }

  lemma {:induction false} ValuesKnown(c: PartClass, shelf: Shelf, entries: seq<nat>, q: nat, vs: seq<int>)
    requires Equipped(c, shelf, entries, q) && Entries(shelf, entries) && Below(vs, q)
    ensures AllNat(vs) && Coverable(c, entries, vs) && Known(shelf, ValueTokens(c, entries, vs))
  {
    hide PartClass.Csub, FullBook, Lattice.Power, Shelf.Has;
    if vs != [] {
      ValuesKnown(c, shelf, entries, q, vs[1..]);
      var l :| 0 <= l < c.Csub() && q <= MaxVal(c, entries, l);
      FitFound(c, entries, vs[0], 0, l);
      CoverOne(c, entries, vs);
      var book := c.subbook[Bookas(c, entries, vs[0])];
      if book >= 0 && vs[0] < entries[book] {
        FullHas(shelf, book, vs[0]);
      }
    }
  }

  lemma CoverOne(c: PartClass, entries: seq<nat>, vs: seq<int>)
    requires c.Valid(|entries|) && vs != [] && vs[0] >= 0 && FirstFit(c, entries, vs[0], 0) < c.Csub()
    requires Coverable(c, entries, vs[1..])
    ensures Coverable(c, entries, vs)
  {
    hide PartClass.Csub, FirstFit;
    forall k | 0 <= k < |vs|
      ensures vs[k] >= 0 && FirstFit(c, entries, vs[k], 0) < c.Csub()
    {
      assert k > 0 ==> vs[k] == vs[1..][k - 1];
    }
  }

  lemma PartKnown(c: PartClass, shelf: Shelf, entries: seq<nat>, q: nat, vs: seq<int>)
    requires Equipped(c, shelf, entries, q) && Entries(shelf, entries) && Below(vs, q) && |vs| == c.dim
    ensures AllNat(vs) && Coverable(c, entries, vs) && Known(shelf, PartTokens(c, entries, vs))
  {
    hide PartClass.Csub, FullBook, Lattice.Power, Shelf.Has, Cval, ValueTokens, Coverable;
    ValuesKnown(c, shelf, entries, q, vs);
    CvalBound(c, entries, vs);
    if c.subs > 0 {
      FullHas(shelf, c.book, Cval(c, entries, vs));
    }
  }

  lemma {:induction false} PartsKnown(info: FloorInfo, shelf: Shelf, entries: seq<nat>, q: nat, i: nat, vs: seq<int>)
    requires info.Valid(|entries|) && i <= |info.partitionclass| && |vs| == info.Values(i) && Entries(shelf, entries)
    requires Below(vs, q) && forall k :: 0 <= k < |info.partitionclass| ==> Equipped(info.Class(k), shelf, entries, q)
    ensures AllNat(vs) && CoverableFrom(info, entries, i, vs) && Known(shelf, TokensFrom(info, entries, i, vs))
    decreases |info.partitionclass| - i
  {
    hide Equipped, PartTokens, Coverable, PartClass.Valid, Shelf.Has, Entries;
    if i < |info.partitionclass| {
      var c := info.Class(i);
      PartKnown(c, shelf, entries, q, vs[..c.dim]);
      PartsKnown(info, shelf, entries, q, i + 1, vs[c.dim..]);
    }
  }

  /** All numbers of a coded floor are below `Q`. */
  lemma OutsBelow(look: Look, post: seq<int>)
    requires look.Valid() && PostsOk(look, post) && 0 <= post[0] < look.Q() && 0 <= post[1] < look.Q()
    ensures Below(Outs(look, post), look.Q())
  {
    hide SendRun, Floor1.Sent, PostOk;
    forall i | 2 <= i < |post|
      ensures 0 <= Floor1.Sent(look, SendRun(look, post, i), i) < look.Q()
    {
      SendRunOk(look, post, i);
      SendStepOk(look, SendRun(look, post, i), i);
    }
  }

  /** With such books for every class in use, any floor that the encoder may be handed can be sent. */
  lemma EquippedSends(info: FloorInfo, shelf: Shelf, entries: seq<nat>, look: Look, post: seq<int>)
    requires look.Valid() && Postable(look, post) && shelf.Valid() && Entries(shelf, entries) && info.Valid(|entries|)
    requires |look.postlist| == 2 + info.Values(0)
    requires forall k :: 0 <= k < |info.partitionclass| ==> Equipped(info.Class(k), shelf, entries, look.Q())
    ensures Sendable(info, shelf, entries, look, Outs(look, Quantized(look.mult, post)))
  {
    hide Look.Valid, Equipped, FloorInfo.Valid, FloorInfo.Values, Outs, TokensFrom, CoverableFrom, Postable, Entries;
    hide Shelf.Valid, Quantized;
    var sent := Quantized(look.mult, post);
    MultOk(look);
    PostableMeans(info, shelf, entries, look, post);
    EndsOk(look, post);
    OutsBelow(look, sent);
    PartsKnown(info, shelf, entries, look.Q(), 0, Outs(look, sent)[2..]);
  }

  lemma EndsOk(look: Look, post: seq<int>)
    requires look.Valid() && Postable(look, post)
    ensures var sent := Quantized(look.mult, post);
      |sent| == |look.postlist| >= 2 && 0 <= sent[0] < look.Q() && 0 <= sent[1] < look.Q()
  {
    hide Lines.Masked, Lines.Flagged, QuantizePost;
    MultOk(look);
    EndOk(look.mult, post[0]);
    EndOk(look.mult, post[1]);
  }

  /** Coding a floor and decoding it at the other end: each bin of the decoder's spectrum is scaled by the table
      entry that the encoder's mask named, and a floor without posts is silent on both sides. */
  method RoundTrip(info: FloorInfo, look: Look, order: seq<nat>, entries: seq<nat>, encoders: seq<EncodeBook>,
                   decoders: seq<DecodeBook>, b: OggPackBuffer, post: array?<int>, n: nat, ilogmask: array<int>,
                   out: array<real>, table: seq<real>, ghost shelf: Shelf)
    requires look.Valid() && info.Valid(|entries|) && |look.postlist| == 2 + info.Values(0)
    requires shelf.Valid() && Entries(shelf, entries) && Encoders(encoders, shelf) && Decoders(decoders, shelf)
    requires Ordered(look.postlist, order) && post != ilogmask && n <= ilogmask.Length && n <= out.Length
    requires b.Valid() && b.pos == |b.bits| && |table| == 256
    requires post != null ==> Postable(look, post[..])
    requires post != null ==>
      Sendable(info, shelf, entries, look, Outs(look, Quantized(look.mult, post[..])))
    modifies b, post, ilogmask, out
    ensures b.Valid() && b.Rest() == []
    ensures post != null ==>
      forall x :: 0 <= x < n ==>
        0 <= ilogmask[x] < |table| && out[x] == Floored(old(out[x]), table, ilogmask[x])
    ensures post == null ==> forall x :: 0 <= x < n ==> ilogmask[x] == 0 && out[x] == 0.0
  {
    hide Encoders, Decoders, Look.Valid, Outs, SendRun, FloorInfo.Valid, FloorInfo.Values, Shelf.Valid, FloorBits;
    hide Curve, Shaped, PostsOk, Postable, Ordered, Sendable, Floored, Entries, Quantized;
    ghost var start, given := b.bits, if post != null then post[..] else [];
    var coded := Encode(info, look, order, entries, encoders, b, post, n, ilogmask, shelf);
    ghost var sent := if post != null then Quantized(look.mult, given) else [];
    assert b.Rest() == b.bits[|start|..];
    assert b.Rest() + [] == b.Rest();
    if post != null {
      LengthsAre(look, sent);
      MultOk(look);
    }
    var fit;
    ghost var heard;
    fit, heard := DecodeFloor(info, look, entries, decoders, b, true, sent, shelf, []);
    ghost var before := out[..];
    var used := Apply(look, order, fit, n, out, table);
    if post != null {
      ScaledByMask(look, order, fit[..], ilogmask[..], n, before, out[..], table);
    }
  }
}
