/** A residue there and back: what the encoder writes for a block, decoded again. */
module ResidueRoundTrip {
  import opened BitBuffer
  import opened Codebook
  import opened Phrases
  import opened PartitionWords
  import opened Residue
  import opened Residue2
  import opened ResidueLayout
  import opened ResidueInverse
  import opened Cascade

  /** What a block is written as after `start`. */
  ghost predicate Written(look: Look, shelf: Shelf, partword: seq<seq<nat>>, rows: seq<seq<int>>, bits: seq<bool>,
                          start: seq<bool>)
  {
    && Job(look, shelf, partword, rows) && AllSlotsOk(look, partword)
    && Gone(shelf, RunOf(look, shelf, partword, rows, Schedule(look, |partword|)).tokens, bits, start)
  }

  /** Every partition is left with what the books of its class may leave. */
  ghost predicate AllLeftSmall(look: Look, partword: seq<seq<nat>>, rows: seq<seq<int>>, left: seq<seq<int>>)
    requires |rows| == |left| == |partword|
  {
    forall j, i :: 0 <= j < |partword| && 0 <= i < |partword[j]| ==>
      LeftSmall(look, partword[j][i], left[j], i, look.stages, Peak(rows[j], look.At(i), look.grouping))
  }

  /** The encoder's stages account for exactly what they take off. */
  ghost predicate CodedExactly(look: Look, shelf: Shelf, partword: seq<seq<nat>>, rows: seq<seq<int>>)
  {
    && Job(look, shelf, partword, rows) && AllSlotsOk(look, partword)
    && RunOf(look, shelf, partword, rows, Schedule(look, |partword|)).exact
  }

  /** They do where the grids reach the samples, and vectors fill partitions. */
  lemma CoveredIsExact(look: Look, shelf: Shelf, partword: seq<seq<nat>>, rows: seq<seq<int>>)
    requires Job(look, shelf, partword, rows) && |rows| == |partword| && Covered(look, partword, rows) && look.Tiled()
    ensures CodedExactly(look, shelf, partword, rows)
    ensures AllLeftSmall(look, partword, rows, RunOf(look, shelf, partword, rows, Schedule(look, |partword|)).rows)
  {
    hide Job, Covered, LeftSmall, Schedule, RunOf, Look.Tiled, Look.Partvals;
    JobFacts(look, shelf, partword, rows);
    ScheduleCovered(look, shelf, partword, rows);
  }

  /** What was written for a block that is coded exactly can be decoded. */
  lemma WrittenIsSent(look: Look, shelf: Shelf, partword: seq<seq<nat>>, rows: seq<seq<int>>, opb: OggPackBuffer,
                      start: seq<bool>)
    requires Written(look, shelf, partword, rows, opb.bits, start) && opb.pos == |start|
    requires CodedExactly(look, shelf, partword, rows)
    requires look.grouping > 0 && look.begin <= look.end && Phrased(look, shelf, partword)
    ensures Sent(look, shelf, partword, rows, opb, [])
  {
    hide Job, Phrased, Schedule, SlotsOk, Orderly, RunOf, Gone, Coming, Known, Look.Partvals;
    JobFacts(look, shelf, partword, rows);
    ScheduleInTurn(look, partword);
    var all := Schedule(look, |partword|);
    TokensKnown(look, shelf, partword, rows, all);
    GoneIsComing(shelf, RunOf(look, shelf, partword, rows, all).tokens, opb.bits, start, []);
    assert opb.bits[opb.pos..] + [] == opb.Rest();
  }

  // ---------------------------------------------------------------------------------------------
  // Type 1
  // ---------------------------------------------------------------------------------------------

  lemma InStepTiled(look: Look)
    requires look.InStep()
    ensures look.Tiled()
  {
  }

  lemma InStepFits(layout: Layout, look: Look, shelf: Shelf, vecs: seq<array<int>>)
    requires look.grouping > 0 && look.begin <= look.end && look.InStep() && layout.Aligned(look, |vecs|)
    requires layout.Across? ==> |vecs| > 0
    requires forall j: nat :: j < layout.Vectors(vecs) ==> look.end <= layout.Size(vecs, j)
    ensures layout.Fits(look, shelf, vecs)
  {
    hide Look.Tiled, Layout.Fits, Layout.Size;
    TilesFit(layout, look, shelf, vecs);
  }

  /** Coding the channels of a block and decoding them into others: where the stages are exact, each output gains
      its sample less what no stage took off, and the whole packet is used. */
  method RoundTrip(look: Look, half: nat, decodemap: seq<seq<nat>>, vecs: seq<array<int>>, outs: seq<array<int>>,
                   encoders: seq<EncodeBook>, decoders: seq<DecodeBook>, opb: OggPackBuffer, partword: seq<seq<nat>>,
                   ghost shelf: Shelf)
    requires Encoders(encoders, shelf) && Decoders(decoders, shelf) && opb.Valid() && opb.pos == |opb.bits|
    requires look.Valid(shelf) && Classed(look, partword, |partword|) && Phrased(look, shelf, partword)
    requires look.Readable(shelf) && look.InStep()
    requires Decodes(decodemap, look.partitions, look.wordDim) && look.end <= half
    requires |vecs| == |outs| == |partword| && Distinct(vecs) && Distinct(outs)
    requires forall j, k :: 0 <= j < |vecs| && 0 <= k < |outs| ==> vecs[j] != outs[k]
    requires forall j :: 0 <= j < |vecs| ==> look.end <= vecs[j].Length == outs[j].Length
    requires CodedExactly(look, shelf, partword, RowsOf(vecs))
    modifies opb, vecs, outs
    ensures opb.Valid() && opb.Rest() == []
    ensures AllBalanced(RowsOf(outs), RowsOf(vecs), old(RowsOf(outs)), old(RowsOf(vecs)))
    ensures Covered(look, partword, old(RowsOf(vecs))) ==>
      AllLeftSmall(look, partword, old(RowsOf(vecs)), RowsOf(vecs))
  {
    hide Look.Readable, Look.InStep, Layout.Fits, Played;
    hide Encoders, Decoders, Decodes, Look.Valid, Classed, Phrased, Job, RunOf, Covered, Gone, Schedule, AllBalanced;
    hide SlotsOk, LeftSmall, Distinct;
    ghost var start, silent, given := opb.bits, RowsOf(outs), RowsOf(vecs);
    ghost var rows := Forward(look, vecs, encoders, opb, partword, shelf);
    assert rows == given;
    JobFacts(look, shelf, partword, rows);
    ScheduleIs(look, |partword|);
    WrittenIsSent(look, shelf, partword, rows, opb, start);
    InStepFits(PerChannel, look, shelf, outs);
    if Covered(look, partword, rows) {
      InStepTiled(look);
      CoveredIsExact(look, shelf, partword, rows);
    }
    assert RowsOf(outs) == silent;
    var ok;
    ghost var entries;
    ok, entries := Inverse(look, half, decodemap, outs, decoders, opb, true, partword, shelf, rows, []);
    assert RowsOf(vecs) == Left(look, shelf, partword, rows);
  }

  // ---------------------------------------------------------------------------------------------
  // Type 2
  // ---------------------------------------------------------------------------------------------

  /** Interleave the channels and code them as one vector; nothing for a silent block. */
  method ForwardAcross(look: Look, chans: seq<array<int>>, len: nat, nonzero: seq<bool>, books: seq<EncodeBook>,
                       opb: OggPackBuffer, classes: seq<nat>, ghost shelf: Shelf) returns (ghost row: seq<int>)
    requires Encoders(books, shelf) && look.Valid(shelf) && Classed(look, [classes], 1)
    requires |chans| > 0 && (forall c :: 0 <= c < |chans| ==> chans[c].Length == len) && look.end <= len * |chans|
    modifies opb
    ensures Encoders(books, shelf) && opb.pos == old(opb.pos) && Interleaves(row, RowsOf(chans), len)
    ensures if true in nonzero then Written(look, shelf, [classes], [row], opb.bits, old(opb.bits))
            else opb.bits == old(opb.bits)
  {
    hide Encoders, Interleaves, Job, RunOf, Look.Valid, Gone, Classed, Mirrors;
    var work := Interleave(chans, len);
    row := work[..];
    WorkLength(row, RowsOf(chans), len);
    if AnyNonzero(nonzero) {
      ghost var rows := Forward(look, [work], books, opb, [classes], shelf);
      assert rows == [row];
      JobFacts(look, shelf, [classes], rows);
      ScheduleIs(look, 1);
    }
  }

  /** Each output sample is its place of the interleaved vector less what no stage took off, and that is no
      more than the books of its class may leave, where their grids reach the samples. */
  ghost predicate CameBack(look: Look, shelf: Shelf, classes: seq<nat>, row: seq<int>, outs: seq<seq<int>>, len: nat)
  {
    && Job(look, shelf, [classes], [row]) && AllSlotsOk(look, [classes])
    && var left := Left(look, shelf, [classes], [row]);
    && |left| == 1 && (Covered(look, [classes], [row]) ==> AllLeftSmall(look, [classes], [row], left))
    && (forall c :: 0 <= c < |outs| ==> |outs[c]| == len)
    && forall c, t :: 0 <= c < |outs| && 0 <= t < len ==> Gains(outs[c][t], left[0], 0, row, t * |outs| + c)
  }

  lemma OneLeft(look: Look, shelf: Shelf, classes: seq<nat>, row: seq<int>)
    requires CodedExactly(look, shelf, [classes], [row]) && look.InStep()
    ensures var left := Left(look, shelf, [classes], [row]);
      |left| == 1 && (Covered(look, [classes], [row]) ==> AllLeftSmall(look, [classes], [row], left))
  {
    hide Covered, LeftSmall, Schedule, RunOf, Look.Tiled, Look.InStep;
    JobRows(look, shelf, [classes], Left(look, shelf, [classes], [row]));
    if Covered(look, [classes], [row]) {
      InStepTiled(look);
      CoveredIsExact(look, shelf, [classes], [row]);
    }
  }

  /** The decoding half: what was sent of a block, into silent channels. */
  method DecodeBack(look: Look, half: nat, len: nat, decodemap: seq<seq<nat>>, outs: seq<array<int>>,
                    nonzero: seq<bool>, decoders: seq<DecodeBook>, opb: OggPackBuffer, ghost classes: seq<nat>,
                    ghost row: seq<int>, ghost shelf: Shelf)
    requires Decoders(decoders, shelf) && opb.Valid() && CodedExactly(look, shelf, [classes], [row])
    requires Sent(look, shelf, [classes], [row], opb, []) && look.Readable(shelf) && look.InStep()
    requires Decodes(decodemap, look.partitions, look.wordDim) && true in nonzero
    requires 0 < |outs| == |nonzero| && Distinct(outs) && forall c :: 0 <= c < |outs| ==> outs[c].Length == len
    requires look.end <= half && look.end <= len * |outs| == |row|
    requires look.begin % |outs| == 0 && look.grouping % |outs| == 0
    requires forall c, t :: 0 <= c < |outs| && 0 <= t < len ==> RowsOf(outs)[c][t] == 0
    modifies opb, outs
    ensures opb.Valid() && opb.Rest() == []
    ensures CameBack(look, shelf, classes, row, RowsOf(outs), len)
  {
    hide Decoders, Decodes, Interleaves, Job, RunOf, Look.Valid, Mirrors, Gains, Sent, Covered, Schedule, LeftSmall;
    hide Distinct, Look.Readable, Look.InStep, Layout.Fits, AllSlotsOk, KeptAcross, Played, Look.Partvals, AllLeftSmall;
    OneLeft(look, shelf, classes, row);
    JobFacts(look, shelf, [classes], [row]);
    InStepFits(Across(len), look, shelf, outs);
    var ok;
    ghost var entries;
    ok, entries := InverseAcross(look, half, len, decodemap, outs, nonzero, decoders, opb, true, classes, shelf, row,
                                 []);
  }

  /** Coding a block across its channels and decoding it into silent ones: where the stages are
      exact, every sample comes back less what no stage took off it. */
  method RoundTripAcross(look: Look, half: nat, len: nat, decodemap: seq<seq<nat>>, chans: seq<array<int>>,
                         outs: seq<array<int>>, nonzero: seq<bool>, encoders: seq<EncodeBook>,
                         decoders: seq<DecodeBook>, opb: OggPackBuffer, classes: seq<nat>, ghost shelf: Shelf)
      returns (ghost row: seq<int>)
    requires Encoders(encoders, shelf) && Decoders(decoders, shelf) && opb.Valid() && opb.pos == |opb.bits|
    requires look.Valid(shelf) && Classed(look, [classes], 1) && Phrased(look, shelf, [classes])
    requires look.Readable(shelf) && look.InStep()
    requires Decodes(decodemap, look.partitions, look.wordDim) && true in nonzero
    requires 0 < |chans| == |outs| == |nonzero| && Distinct(outs)
    requires forall c :: 0 <= c < |chans| ==> chans[c].Length == outs[c].Length == len
    requires forall c, d :: 0 <= c < |chans| && 0 <= d < |outs| ==> chans[c] != outs[d]
    requires look.end <= half && look.end <= len * |chans|
    requires look.begin % |chans| == 0 && look.grouping % |chans| == 0
    requires CodedExactly(look, shelf, [classes], [Mixed(RowsOf(chans), len)])
    requires forall c, t :: 0 <= c < |outs| && 0 <= t < len ==> RowsOf(outs)[c][t] == 0
    modifies opb, outs
    ensures Interleaves(row, RowsOf(chans), len) && RowsOf(chans) == old(RowsOf(chans))
    ensures opb.Valid() && opb.Rest() == []
    ensures CameBack(look, shelf, classes, row, RowsOf(outs), len)
  {
    hide Encoders, Decoders, Decodes, Interleaves, Job, RunOf, Phrased, Look.Valid, Gone, Classed, Mirrors, Gains;
    hide SlotsOk, Mixed, Distinct, Covered, Schedule, LeftSmall, Look.Readable, Look.InStep, Layout.Fits;
    hide AllSlotsOk, KeptAcross, Look.Partvals, AllLeftSmall, Coming;
    ghost var start := opb.bits;
    ghost var silent := RowsOf(outs);
    row := ForwardAcross(look, chans, len, nonzero, encoders, opb, classes, shelf);
    assert RowsOf(outs) == silent;
    OneMixture(row, Mixed(RowsOf(chans), len), RowsOf(chans), len);
    JobFacts(look, shelf, [classes], [row]);
    WrittenIsSent(look, shelf, [classes], [row], opb, start);
    WorkLength(row, RowsOf(chans), len);
    DecodeBack(look, half, len, decodemap, outs, nonzero, decoders, opb, classes, row, shelf);
  }
}
