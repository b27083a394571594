/** A mapping in the setup header: submaps, coupling steps, and which submap each channel goes through
    (section 4.2.4 of the Vorbis I specification). */
module MappingSetup {
  import opened Wrappers
  import opened BitMath
  import opened BitBuffer
  import opened Fields

  datatype Info = Info(submaps: nat, mag: seq<nat>, ang: seq<nat>, chmux: seq<nat>, floorsubmap: seq<nat>,
                       residuesubmap: seq<nat>)
  {
    /** What the reader makes sure of. */
    ghost predicate Valid(channels: nat, floors: nat, residues: nat)
    {
      && 1 <= submaps <= 16 && StepsOk(mag, ang, channels) && |mag| <= 256
      && |chmux| == channels && Below(chmux, submaps)
      && |floorsubmap| == |residuesubmap| == submaps && Below(floorsubmap, floors) && Below(residuesubmap, residues)
    }
  }

  /** Every step couples two different channels that there are. */
  ghost predicate StepsOk(mag: seq<nat>, ang: seq<nat>, channels: nat)
  {
    |mag| == |ang| && Below(mag, channels) && Below(ang, channels) && forall i :: 0 <= i < |mag| ==> mag[i] != ang[i]
  }

  /** Bits that tell `channels` channels apart. */
  function ChannelBits(channels: nat): (w: nat)
    ensures channels <= Pow2(w)
  {
    ILog(if channels > 0 then channels - 1 else 0)
  }

  ghost function SubmapFields(m: Info, later: seq<Field>): seq<Field>
  {
    if m.submaps > 1 then [Field(1, 1)] + ([Field(m.submaps - 1, 4)] + later) else [Field(0, 1)] + later
  }

  ghost function PairFields(mag: seq<nat>, ang: seq<nat>, w: nat, i: nat, later: seq<Field>): seq<Field>
    requires |mag| == |ang|
    decreases |mag| - i
  {
    if i >= |mag| then later else [Field(mag[i], w)] + ([Field(ang[i], w)] + PairFields(mag, ang, w, i + 1, later))
  }

  ghost function CouplingFields(m: Info, w: nat, later: seq<Field>): seq<Field>
    requires |m.mag| == |m.ang|
  {
    if |m.mag| > 0 then [Field(1, 1)] + ([Field(|m.mag| - 1, 8)] + PairFields(m.mag, m.ang, w, 0, later))
    else [Field(0, 1)] + later
  }

  ghost function MuxFields(m: Info, later: seq<Field>): seq<Field>
  {
    if m.submaps > 1 then ListFields(m.chmux, 4, 0, later) else later
  }

  /** For each submap an unused number, its floor and its residue. */
  ghost function PartFields(m: Info, i: nat, later: seq<Field>): seq<Field>
    requires |m.floorsubmap| == |m.residuesubmap|
    decreases |m.floorsubmap| - i
  {
    if i >= |m.floorsubmap| then later
    else [Field(0, 8)] + ([Field(m.floorsubmap[i], 8)] + ([Field(m.residuesubmap[i], 8)] + PartFields(m, i + 1, later)))
  }

  ghost function InfoFields(m: Info, channels: nat, later: seq<Field>): seq<Field>
    requires |m.mag| == |m.ang| && |m.floorsubmap| == |m.residuesubmap|
  {
    SubmapFields(m, CouplingFields(m, ChannelBits(channels), [Field(0, 2)] + MuxFields(m, PartFields(m, 0, later))))
  }

  // ---------------------------------------------------------------------------------------------
  // Writing
  // ---------------------------------------------------------------------------------------------

  /** Write a mapping. */
  method Pack(m: Info, channels: nat, opb: OggPackBuffer, ghost floors: nat, ghost residues: nat,
              ghost later: seq<Field>, ghost all: seq<bool>)
    requires m.Valid(channels, floors, residues) && opb.bits + Row(InfoFields(m, channels, later)) == all
    modifies opb
    ensures opb.pos == old(opb.pos) && opb.bits + Row(later) == all
  {
    hide Row, ILog, Below;
    ghost var parts := PartFields(m, 0, later);
    ghost var mux := MuxFields(m, parts);
    var w := ChannelBits(channels);
    ghost var steps := CouplingFields(m, w, [Field(0, 2)] + mux);
    if m.submaps > 1 {
      PutField(opb, 1, 1, [Field(m.submaps - 1, 4)] + steps, all);
      PutField(opb, m.submaps - 1, 4, steps, all);
    } else {
      PutField(opb, 0, 1, steps, all);
    }
    PackCoupling(m, w, opb, [Field(0, 2)] + mux, all);
    PutField(opb, 0, 2, mux, all);
    if m.submaps > 1 {
      PutList(opb, m.chmux, 4, 0, channels, parts, all);
    }
    for i := 0 to m.submaps
      invariant opb.pos == old(opb.pos) && opb.bits + Row(PartFields(m, i, later)) == all
    {
      ghost var rest := PartFields(m, i + 1, later);
      PutField(opb, 0, 8, [Field(m.floorsubmap[i], 8)] + ([Field(m.residuesubmap[i], 8)] + rest), all);
      PutField(opb, m.floorsubmap[i], 8, [Field(m.residuesubmap[i], 8)] + rest, all);
      PutField(opb, m.residuesubmap[i], 8, rest, all);
    }
  }

  method PackCoupling(m: Info, w: nat, opb: OggPackBuffer, ghost later: seq<Field>, ghost all: seq<bool>)
    requires |m.mag| == |m.ang| && opb.bits + Row(CouplingFields(m, w, later)) == all
    modifies opb
    ensures opb.pos == old(opb.pos) && opb.bits + Row(later) == all
  {
    hide Row;
    if |m.mag| == 0 {
      PutField(opb, 0, 1, later, all);
      return;
    }
    ghost var pairs := PairFields(m.mag, m.ang, w, 0, later);
    PutField(opb, 1, 1, [Field(|m.mag| - 1, 8)] + pairs, all);
    PutField(opb, |m.mag| - 1, 8, pairs, all);
    for i := 0 to |m.mag|
      invariant opb.pos == old(opb.pos) && opb.bits + Row(PairFields(m.mag, m.ang, w, i, later)) == all
    {
      ghost var rest := PairFields(m.mag, m.ang, w, i + 1, later);
      PutField(opb, m.mag[i], w, [Field(m.ang[i], w)] + rest, all);
      PutField(opb, m.ang[i], w, rest, all);
    }
  }

  // ---------------------------------------------------------------------------------------------
  // Where a packet has each number
  // ---------------------------------------------------------------------------------------------

  /** A bit says whether there are several submaps, and the next four how many more than one. */
  ghost predicate SubmapsAt(bits: seq<bool>, submaps: nat)
  {
    |bits| >= 1 && if bits[0] then Stands(bits, 1, 4, submaps - 1) else submaps == 1
  }

  function SubmapsEnd(bits: seq<bool>): nat
  {
    if |bits| > 0 && bits[0] then 5 else 1
  }

  /** Step `k` of the coupling: the channel of the magnitude, then that of the angle. */
  ghost predicate StepAt(bits: seq<bool>, w: nat, k: nat, mag: nat, ang: nat)
  {
    Stands(bits, 9 + k * (2 * w), w, mag) && Stands(bits, 9 + k * (2 * w) + w, w, ang)
  }

  /** A bit says whether there is coupling, the next eight how many more steps than one; the steps follow. */
  ghost predicate CouplingAt(bits: seq<bool>, w: nat, mag: seq<nat>, ang: seq<nat>)
  {
    && |bits| >= 1 && |mag| == |ang| && CouplingEnd(bits, w, |mag|) <= |bits|
    && if bits[0] then
         Stands(bits, 1, 8, |mag| - 1) && forall k :: 0 <= k < |mag| ==> StepAt(bits, w, k, mag[k], ang[k])
       else |mag| == 0
  }

  function CouplingEnd(bits: seq<bool>, w: nat, steps: nat): nat
  {
    if |bits| > 0 && bits[0] then 9 + steps * (2 * w) else 1
  }

  /** Four bits for each channel's submap, if there is a choice. */
  ghost predicate MuxAt(bits: seq<bool>, submaps: nat, chmux: seq<nat>)
  {
    if submaps > 1 then ListStands(bits, 0, 4, chmux) else forall c :: 0 <= c < |chmux| ==> chmux[c] == 0
  }

  function MuxEnd(submaps: nat, channels: nat): nat
  {
    if submaps > 1 then channels * 4 else 0
  }

  /** For submap `k` eight bits that nobody reads, then its floor, then its residue. */
  ghost predicate PartAt(bits: seq<bool>, k: nat, floor: nat, residue: nat)
  {
    Stands(bits, 24 * k + 8, 8, floor) && Stands(bits, 24 * k + 16, 8, residue)
  }

  ghost predicate PartsAt(bits: seq<bool>, floorsubmap: seq<nat>, residuesubmap: seq<nat>)
  {
    && |floorsubmap| == |residuesubmap| && 24 * |floorsubmap| <= |bits|
    && forall k :: 0 <= k < |floorsubmap| ==> PartAt(bits, k, floorsubmap[k], residuesubmap[k])
  }

  /** A packet that is read as the mapping `m` has its numbers in these places, and then `rest`. */
  ghost predicate Laid(bits: seq<bool>, m: Info, channels: nat, rest: seq<bool>)
  {
    && SubmapsAt(bits, m.submaps) && SubmapsEnd(bits) <= |bits|
    && var w, b := ChannelBits(channels), bits[SubmapsEnd(bits)..];
    && CouplingAt(b, w, m.mag, m.ang)
    && var c := b[CouplingEnd(b, w, |m.mag|)..];
    && Stands(c, 0, 2, 0)
    && var d := c[2..];
    && |m.chmux| == channels && MuxAt(d, m.submaps, m.chmux) && MuxEnd(m.submaps, channels) <= |d|
    && var e := d[MuxEnd(m.submaps, channels)..];
    && PartsAt(e, m.floorsubmap, m.residuesubmap) && rest == e[24 * |m.floorsubmap|..]
  }

  lemma StandsInside(bits: seq<bool>, at: nat, width: nat, v: int)
    requires Stands(bits, at, width, v)
    ensures at + width <= |bits|
  {
  }

  lemma BitStands(bits: seq<bool>, v: int)
    requires Stands(bits, 0, 1, v)
    ensures |bits| >= 1 && (v == if bits[0] then 1 else 0)
  {
    assert bits[0..1] == [bits[0]];
    assert FromBits([bits[0]][1..]) == 0;
  }

  // ---------------------------------------------------------------------------------------------
  // Reading
  // ---------------------------------------------------------------------------------------------

  method UnpackSubmaps(opb: OggPackBuffer, ghost known: bool, ghost m: Info, ghost later: seq<Field>,
                       ghost more: seq<bool>)
      returns (submaps: int)
    requires opb.Valid() && (known ==> 1 <= m.submaps <= 16 && Next(opb, SubmapFields(m, later), more))
    modifies opb
    ensures opb.Valid() && opb.bits == old(opb.bits) && 0 <= submaps <= 16
    ensures submaps > 0 ==>
      && SubmapsAt(old(opb.Rest()), submaps) && SubmapsEnd(old(opb.Rest())) <= |old(opb.Rest())|
      && opb.Rest() == old(opb.Rest())[SubmapsEnd(old(opb.Rest()))..]
    ensures known ==> submaps == m.submaps && Next(opb, later, more)
  {
    hide Row, Next, Pow2, Stands, OggPackBuffer.Rest;
    FieldPowers();
    ghost var bits := opb.Rest();
    var b := GetField(opb, 1, known, if m.submaps > 1 then 1 else 0,
                      if m.submaps > 1 then [Field(m.submaps - 1, 4)] + later else later, more);
    if b < 0 {
      return 0;
    }
    BitStands(bits, b);
    if b == 0 {
      return 1;
    }
    var n := GetField(opb, 4, known, if known then m.submaps - 1 else 0, later, more);
    submaps := n + 1;
    if n >= 0 {
      StandsAfter(bits, 1, 0, 4, n);
      StandsInside(bits, 1, 4, n);
      RestAfter(bits, 1, 4);
    }
  }

  /** The coupling steps; refused when one couples a channel with itself or with none. */
  method UnpackCoupling(channels: nat, opb: OggPackBuffer, ghost known: bool, ghost m: Info, ghost later: seq<Field>,
                        ghost more: seq<bool>)
      returns (ok: bool, mag: seq<nat>, ang: seq<nat>)
    requires opb.Valid()
    requires known ==>
      StepsOk(m.mag, m.ang, channels) && |m.mag| <= 256
      && Next(opb, CouplingFields(m, ChannelBits(channels), later), more)
    modifies opb
    ensures opb.Valid() && opb.bits == old(opb.bits) && (ok ==> StepsOk(mag, ang, channels) && |mag| <= 256)
    ensures ok ==>
      && CouplingAt(old(opb.Rest()), ChannelBits(channels), mag, ang)
      && opb.Rest() == old(opb.Rest())[CouplingEnd(old(opb.Rest()), ChannelBits(channels), |mag|)..]
    ensures known ==> ok && mag == m.mag && ang == m.ang && Next(opb, later, more)
  {
    hide Row, Next, Pow2, ChannelBits, Below, Stands, OggPackBuffer.Rest, StepsOk, CouplingAt, PairsAt, CouplingEnd;
    FieldPowers();
    if known {
      StepsPaired(m, channels);
    }
    ghost var bits := opb.Rest();
    mag, ang := [], [];
    NoSteps(channels);
    ghost var some, w := known && |m.mag| > 0, ChannelBits(channels);
    ghost var pairs := if some then PairFields(m.mag, m.ang, w, 0, later) else [];
    var b := GetField(opb, 1, known, if some then 1 else 0, if some then [Field(|m.mag| - 1, 8)] + pairs else later,
                      more);
    if b < 0 {
      return false, [], [];
    }
    BitStands(bits, b);
    if b == 0 {
      NoCoupling(bits, ChannelBits(channels));
      return true, [], [];
    }
    var steps := GetField(opb, 8, known, if some then |m.mag| - 1 else 0, pairs, more);
    if steps + 1 <= 0 {
      return false, [], [];
    }
    StandsAfter(bits, 1, 0, 8, steps);
    StandsInside(bits, 1, 8, steps);
    RestAfter(bits, 1, 8);
    ok, mag, ang := UnpackSteps(steps + 1, channels, opb, known, if known then m.mag else [],
                                if known then m.ang else [], later, more);
    if ok {
      StepsFromNine(bits, ChannelBits(channels), mag, ang, opb.Rest());
    }
  }

  ghost predicate PairAt(bits: seq<bool>, w: nat, k: nat, mag: nat, ang: nat)
  {
    Stands(bits, k * (2 * w), w, mag) && Stands(bits, k * (2 * w) + w, w, ang)
  }

  ghost predicate PairsAt(bits: seq<bool>, w: nat, mag: seq<nat>, ang: seq<nat>, rest: seq<bool>)
  {
    && |mag| == |ang| && |mag| * (2 * w) <= |bits| && rest == bits[|mag| * (2 * w)..]
    && forall k :: 0 <= k < |mag| ==> PairAt(bits, w, k, mag[k], ang[k])
  }

  /** The steps as they stand after the nine bits before them. */
  lemma StepsFromNine(bits: seq<bool>, w: nat, mag: seq<nat>, ang: seq<nat>, rest: seq<bool>)
    requires 9 <= |bits| && bits[0] && Stands(bits, 1, 8, |mag| - 1) && PairsAt(bits[9..], w, mag, ang, rest)
    ensures CouplingAt(bits, w, mag, ang) && rest == bits[CouplingEnd(bits, w, |mag|)..]
  {
    hide Stands;
    forall k | 0 <= k < |mag|
      ensures StepAt(bits, w, k, mag[k], ang[k])
    {
      assert PairAt(bits[9..], w, k, mag[k], ang[k]);
      StandsAfter(bits, 9, k * (2 * w), w, mag[k]);
      StandsAfter(bits, 9, k * (2 * w) + w, w, ang[k]);
    }
    RestAfter(bits, 9, |mag| * (2 * w));
  }

  /** No coupling is one clear bit. */
  lemma NoCoupling(bits: seq<bool>, w: nat)
    requires |bits| >= 1 && !bits[0]
    ensures CouplingAt(bits, w, [], []) && CouplingEnd(bits, w, 0) == 1
  {
  }

  lemma NoSteps(channels: nat)
    ensures StepsOk([], [], channels)
  {
  }

  method UnpackSteps(n: nat, channels: nat, opb: OggPackBuffer, ghost known: bool, ghost mags: seq<nat>,
                     ghost angs: seq<nat>, ghost later: seq<Field>,
                     ghost more: seq<bool>) returns (ok: bool, mag: seq<nat>, ang: seq<nat>)
    requires opb.Valid()
    requires known ==>
      |mags| == n && StepsOk(mags, angs, channels)
      && Next(opb, PairFields(mags, angs, ChannelBits(channels), 0, later), more)
    modifies opb
    ensures opb.Valid() && opb.bits == old(opb.bits) && (ok ==> |mag| == |ang| == n && StepsOk(mag, ang, channels))
    ensures ok ==> PairsAt(old(opb.Rest()), ChannelBits(channels), mag, ang, opb.Rest())
    ensures known ==> ok && mag == mags && ang == angs && Next(opb, later, more)
  {
    hide Row, Next, Pow2, ChannelBits, Stands, OggPackBuffer.Rest, PairsAt;
    ghost var bits := opb.Rest();
    mag, ang := [], [];
    NoPairs(bits, ChannelBits(channels));
    for i := 0 to n
      invariant opb.Valid() && opb.bits == old(opb.bits) && |mag| == |ang| == i && StepsOk(mag, ang, channels)
      invariant PairsAt(bits, ChannelBits(channels), mag, ang, opb.Rest())
      invariant known ==>
        mag == mags[..i] && ang == angs[..i] && Next(opb, PairFields(mags, angs, ChannelBits(channels), i, later), more)
    {
      ghost var w := ChannelBits(channels);
      ghost var rest := if known then PairFields(mags, angs, w, i + 1, later) else [];
      ghost var before := opb.Rest();
      var testM := GetField(opb, ChannelBits(channels), known, if known then mags[i] else 0,
                            [Field(if known then angs[i] else 0, w)] + rest, more);
      var testA := GetField(opb, ChannelBits(channels), known, if known then angs[i] else 0, rest, more);
      if testM < 0 || testA < 0 || testM == testA || testM >= channels || testA >= channels {
        return false, [], [];
      }
      NextPair(bits, w, mag, ang, before, testM, testA);
      mag, ang := mag + [testM], ang + [testA];
    }
    ok := true;
  }

  lemma NoPairs(bits: seq<bool>, w: nat)
    ensures PairsAt(bits, w, [], [], bits)
  {
  }

  lemma NextPair(bits: seq<bool>, w: nat, mag: seq<nat>, ang: seq<nat>, rest: seq<bool>, m: nat, a: nat)
    requires PairsAt(bits, w, mag, ang, rest) && Stands(rest, 0, w, m) && w <= |rest| && Stands(rest[w..], 0, w, a)
    ensures PairsAt(bits, w, mag + [m], ang + [a], rest[w..][w..])
  {
    hide Stands;
    var i, at := |mag|, |mag| * (2 * w);
    StandsAfter(bits, at, 0, w, m);
    StandsAfter(rest, w, 0, w, a);
    StandsAfter(bits, at, w, w, a);
    StandsInside(bits, at + w, w, a);
    assert (i + 1) * (2 * w) == at + 2 * w;
    RestAfter(bits, at, w);
    RestAfter(bits, at + w, w);
    assert PairAt(bits, w, i, m, a);
  }

  /** The submap of each channel, written only when there is a choice. */
  method UnpackMux(submaps: nat, channels: nat, opb: OggPackBuffer, ghost known: bool, ghost m: Info,
                   ghost later: seq<Field>, ghost more: seq<bool>)
      returns (ok: bool, chmux: seq<nat>)
    requires opb.Valid() && 1 <= submaps <= 16
    requires known ==>
      submaps == m.submaps && |m.chmux| == channels && Below(m.chmux, submaps) && Next(opb, MuxFields(m, later), more)
    modifies opb
    ensures opb.Valid() && opb.bits == old(opb.bits) && (ok ==> |chmux| == channels && Below(chmux, submaps))
    ensures ok ==>
      && MuxAt(old(opb.Rest()), submaps, chmux) && MuxEnd(submaps, channels) <= |old(opb.Rest())|
      && opb.Rest() == old(opb.Rest())[MuxEnd(submaps, channels)..]
    ensures known ==> ok && chmux == m.chmux && Next(opb, later, more)
  {
    hide Row, Next, Pow2, ListStands, Stands, OggPackBuffer.Rest;
    FieldPowers();
    ghost var bits := opb.Rest();
    NoneStands(bits, 4);
    if submaps <= 1 {
      chmux := seq(channels, i => 0);
      return true, chmux;
    }
    chmux := [];
    for i := 0 to channels
      invariant opb.Valid() && opb.bits == old(opb.bits) && |chmux| == i && Below(chmux, submaps)
      invariant ListStands(bits, 0, 4, chmux) && i * 4 <= |bits| && opb.Rest() == bits[i * 4..]
      invariant known ==> chmux == m.chmux[..i] && Next(opb, ListFields(m.chmux, 4, i, later), more)
    {
      var v := GetField(opb, 4, known, if known then m.chmux[i] else 0,
                        if known then ListFields(m.chmux, 4, i + 1, later) else [], more);
      if v >= submaps || v < 0 {
        return false, [];
      }
      ListStandsMore(bits, 0, 4, chmux, v);
      NextStands(bits, i * 4, 4, v);
      chmux := chmux + [v];
    }
    ok := true;
  }

  /** The floor and the residue of each submap. */
  method UnpackParts(submaps: nat, floors: nat, residues: nat, opb: OggPackBuffer, ghost known: bool, ghost m: Info,
                     ghost later: seq<Field>,
                     ghost more: seq<bool>) returns (ok: bool, floorsubmap: seq<nat>, residuesubmap: seq<nat>)
    requires opb.Valid() && floors <= 64 && residues <= 64
    requires known ==>
      && submaps == |m.floorsubmap| == |m.residuesubmap| && Below(m.floorsubmap, floors)
      && Below(m.residuesubmap, residues)
      && Next(opb, PartFields(m, 0, later), more)
    modifies opb
    ensures opb.Valid() && opb.bits == old(opb.bits)
    ensures ok ==>
      |floorsubmap| == |residuesubmap| == submaps && Below(floorsubmap, floors) && Below(residuesubmap, residues)
    ensures ok ==>
      && PartsAt(old(opb.Rest()), floorsubmap, residuesubmap) && opb.Rest() == old(opb.Rest())[24 * submaps..]
    ensures known ==> ok && floorsubmap == m.floorsubmap && residuesubmap == m.residuesubmap && Next(opb, later, more)
  {
    hide Row, Next, Pow2, Stands, OggPackBuffer.Rest, PartAt;
    FieldPowers();
    ghost var bits := opb.Rest();
    assert bits[0..] == bits;
    floorsubmap, residuesubmap := [], [];
    for i := 0 to submaps
      invariant opb.Valid() && opb.bits == old(opb.bits)
      invariant |floorsubmap| == |residuesubmap| == i && Below(floorsubmap, floors) && Below(residuesubmap, residues)
      invariant PartsAt(bits, floorsubmap, residuesubmap) && opb.Rest() == bits[24 * i..]
      invariant known ==>
        floorsubmap == m.floorsubmap[..i] && residuesubmap == m.residuesubmap[..i]
        && Next(opb, PartFields(m, i, later), more)
    {
      ghost var f, r := if known then m.floorsubmap[i] else 0, if known then m.residuesubmap[i] else 0;
      ghost var rest := if known then PartFields(m, i + 1, later) else [];
      var unused := GetField(opb, 8, known, 0, [Field(f, 8)] + ([Field(r, 8)] + rest), more);
      var fl := GetField(opb, 8, known, f, [Field(r, 8)] + rest, more);
      if fl >= floors || fl < 0 {
        return false, [], [];
      }
      var re := GetField(opb, 8, known, r, rest, more);
      if re >= residues || re < 0 {
        return false, [], [];
      }
      NextPart(bits, i, fl, re);
      floorsubmap, residuesubmap := floorsubmap + [fl], residuesubmap + [re];
    }
    ok := true;
  }

  lemma NextPart(bits: seq<bool>, i: nat, floor: nat, residue: nat)
    requires 24 * i + 8 <= |bits|
    requires var rest := bits[24 * i..][8..];
      Stands(rest, 0, 8, floor) && 8 <= |rest| && Stands(rest[8..], 0, 8, residue)
    ensures PartAt(bits, i, floor, residue) && 24 * (i + 1) <= |bits|
    ensures bits[24 * i..][8..][8..][8..] == bits[24 * (i + 1)..]
  {
    hide Stands;
    RestAfter(bits, 24 * i, 8);
    StandsAfter(bits, 24 * i + 8, 0, 8, floor);
    RestAfter(bits, 24 * i + 8, 8);
    StandsAfter(bits, 24 * i + 16, 0, 8, residue);
    StandsInside(bits, 24 * i + 16, 8, residue);
    RestAfter(bits, 24 * i + 16, 8);
  }

  /** Read a mapping. Whatever the packet holds, an accepted one refers only to channels, floors and
      residues there are; what was written comes back. */
  method Unpack(channels: nat, floors: nat, residues: nat, opb: OggPackBuffer, ghost known: bool, ghost m: Info,
                ghost later: seq<Field>,
                ghost more: seq<bool>) returns (result: Option<Info>)
    requires opb.Valid() && floors <= 64 && residues <= 64
    requires known ==> m.Valid(channels, floors, residues) && Next(opb, InfoFields(m, channels, later), more)
    modifies opb
    ensures opb.Valid() && opb.bits == old(opb.bits)
    ensures (result.Some? ==> result.value.Valid(channels, floors, residues))
    ensures result.Some? ==> Laid(old(opb.Rest()), result.value, channels, opb.Rest())
    ensures known ==> result == Some(m) && Next(opb, later, more)
  {
    hide Row, Next, Pow2, Below, StepsOk, ChannelBits, SubmapFields, PairFields, MuxFields, PartFields;
    hide Stands, OggPackBuffer.Rest, SubmapsAt, CouplingAt, MuxAt, PartsAt, SubmapsEnd, CouplingEnd, MuxEnd;
    FieldPowers();
    ghost var parts := if known then PartFields(m, 0, later) else [];
    ghost var mux := MuxFields(m, parts);
    if known {
      StepsPaired(m, channels);
    }
    ghost var steps := if known then CouplingFields(m, ChannelBits(channels), [Field(0, 2)] + mux) else [];
    var submaps := UnpackSubmaps(opb, known, m, steps, more);
    if submaps <= 0 {
      return None;
    }
    var ok, mag, ang := UnpackCoupling(channels, opb, known, m, [Field(0, 2)] + mux, more);
    if !ok {
      return None;
    }
    var reserved := GetField(opb, 2, known, 0, mux, more);
    if reserved != 0 {
      return None;
    }
    var chmux;
    ok, chmux := UnpackMux(submaps, channels, opb, known, m, parts, more);
    if !ok {
      return None;
    }
    var floorsubmap, residuesubmap;
    ok, floorsubmap, residuesubmap := UnpackParts(submaps, floors, residues, opb, known, m, later, more);
    if !ok {
      return None;
    }
    result := Some(Info(submaps, mag, ang, chmux, floorsubmap, residuesubmap));
  }

  lemma StepsPaired(m: Info, channels: nat)
    requires StepsOk(m.mag, m.ang, channels)
    ensures |m.mag| == |m.ang|
  {
  }
}
