/** The encoder's blocking: a sliding sample buffer cut into overlapping long and short blocks. */
module Analysis {
  import opened Wrappers
  import opened Blocks

  /** What the envelope search may answer: too little data, or the next block's size. */
  datatype Search = Starved | Boundary(long: bool)

  // ---------------------------------------------------------------------------------------------
  // What the state means
  // ---------------------------------------------------------------------------------------------

  /** Block `k` holds the stretch of the stream around its own centre. */
  ghost predicate InPlace(sz: Sizes, stream: seq<real>, blocks: seq<Block>, k: nat)
    requires k < |blocks|
  {
    HoldsStream(sz, stream, blocks[k], Center(sz, blocks, k))
  }

  ghost predicate HoldsStream(sz: Sizes, stream: seq<real>, b: Block, center: nat)
  {
    var begin := center + sz.Half(true) - sz.Half(b.W);
    0 <= begin && begin + sz.Of(b.W) <= |stream| && b.pcm == stream[begin..begin + sz.Of(b.W)]
  }

  ghost predicate AllInPlace(sz: Sizes, stream: seq<real>, blocks: seq<Block>)
  {
    forall k :: 0 <= k < |blocks| ==> InPlace(sz, stream, blocks, k)
  }

  /** Blocks handed out so far, none of them the last. */
  ghost predicate Running(sz: Sizes, blocks: seq<Block>, total: nat)
  {
    && (forall k :: 0 <= k < |blocks| ==> Follows(sz, blocks, k))
    && (forall k :: 0 <= k < |blocks| ==> Marked(sz, blocks, total, k))
  }

  /** The next block, of size `w` after one of size `lw`, is centred `moved` samples into the input. */
  ghost predicate NextAt(sz: Sizes, blocks: seq<Block>, lw: bool, w: bool, sequence: int, moved: nat)
  {
    if blocks == [] then moved == 0 && sequence == FIRST_SEQUENCE
    else
      var k := |blocks| - 1;
      && moved == Center(sz, blocks, k) + sz.Step(blocks[k].W, blocks[k].nW)
      && w == blocks[k].nW && lw == blocks[k].W && sequence == blocks[k].sequence + 1
  }

  /** Where the buffer of `len` samples, `moved` samples into the stream, stands relative to an
      input of `total` samples. */
  ghost predicate Placed(sz: Sizes, len: nat, moved: nat, total: nat, eofflag: int, granulepos: int)
  {
    if eofflag == 0 then
      moved + len == sz.Half(true) + total && len >= sz.Half(true) && granulepos == moved
    else if eofflag > 0 then
      && moved + eofflag == sz.Half(true) + total && len >= eofflag + 3 * sz.long
      && granulepos == (if moved <= total then moved else total)
    else eofflag == -1
  }

  // ---------------------------------------------------------------------------------------------
  // Lemmas about one step
  // ---------------------------------------------------------------------------------------------

  lemma MoreStream(sz: Sizes, stream: seq<real>, blocks: seq<Block>, samples: seq<real>)
    requires AllInPlace(sz, stream, blocks)
    ensures AllInPlace(sz, stream + samples, blocks)
  {
    forall k | 0 <= k < |blocks|
      ensures InPlace(sz, stream + samples, blocks, k)
    {
      assert InPlace(sz, stream, blocks, k);
      var begin, size := Center(sz, blocks, k) + sz.Half(true) - sz.Half(blocks[k].W), sz.Of(blocks[k].W);
      assert (stream + samples)[begin..begin + size] == stream[begin..begin + size];
    }
  }

  lemma MoreTotal(sz: Sizes, blocks: seq<Block>, total: nat, total': nat)
    requires Running(sz, blocks, total) && total <= total'
    ensures Running(sz, blocks, total')
  {
    forall k | 0 <= k < |blocks|
      ensures Marked(sz, blocks, total', k)
    {
      assert Marked(sz, blocks, total, k);
    }
  }

  /** The block under construction is centred where the state says. */
  lemma NewCenter(sz: Sizes, blocks: seq<Block>, b: Block, moved: nat)
    requires NextAt(sz, blocks, b.lW, b.W, b.sequence, moved)
    ensures Center(sz, blocks + [b], |blocks|) == moved && Follows(sz, blocks + [b], |blocks|)
    ensures forall k :: 0 <= k < |blocks| ==> Center(sz, blocks + [b], k) == Center(sz, blocks, k)
  {
    forall k | 0 <= k < |blocks|
      ensures Center(sz, blocks + [b], k) == Center(sz, blocks, k)
    {
      CenterPrefix(sz, blocks, [b], k);
    }
  }

  lemma AddInPlace(sz: Sizes, stream: seq<real>, blocks: seq<Block>, b: Block, moved: nat)
    requires AllInPlace(sz, stream, blocks) && NextAt(sz, blocks, b.lW, b.W, b.sequence, moved)
    requires HoldsStream(sz, stream, b, moved)
    ensures AllInPlace(sz, stream, blocks + [b])
  {
    var more := blocks + [b];
    NewCenter(sz, blocks, b, moved);
    hide Center;
    forall k | 0 <= k < |more|
      ensures InPlace(sz, stream, more, k)
    {
      if k < |blocks| {
        assert InPlace(sz, stream, blocks, k);
      }
    }
  }

  /** A buffer of `len` samples holds all of the block around its centre. */
  ghost predicate Whole(sz: Sizes, w: bool, len: nat)
  {
    sz.Half(true) + sz.Half(w) <= len
  }

  /** The test that a block of size `w` may be shaped when `nw` is the next size: the next block is all there. */
  ghost predicate Guard(sz: Sizes, w: bool, nw: bool, len: nat)
  {
    sz.Half(true) + sz.Step(w, nw) + sz.Half(nw) <= len
  }

  /** Whatever the buffer length, passing the test means that the block itself is all there. */
  ghost predicate Covers(sz: Sizes, w: bool, nw: bool)
  {
    forall len: nat :: Guard(sz, w, nw, len) ==> Whole(sz, w, len)
  }

  /** By itself the test does not see to a long block before a much shorter one. */
  lemma GuardCovers(sz: Sizes, w: bool, nw: bool)
    requires sz.Valid()
    ensures Covers(sz, w, nw) <==> !(w && !nw) || 3 * sz.short >= sz.long
  {
    sz.Bounds(w);
    sz.Bounds(nw);
    if w && !nw && 3 * sz.short < sz.long {
      var len := sz.Half(true) + sz.Step(w, nw) + sz.Half(nw);
      assert Guard(sz, w, nw, len) && !Whole(sz, w, len);
    }
  }

  /** But the test made one block earlier does: what it asked for is there when the next block is cut. */
  lemma GuardBefore(sz: Sizes, w: bool, nw: bool, len: nat)
    requires sz.Valid() && Guard(sz, w, nw, len)
    ensures sz.Step(w, nw) <= len && Whole(sz, nw, len - sz.Step(w, nw))
  {
  }

  /** A short block needs no such help. */
  lemma CutsInside(sz: Sizes, w: bool, nw: bool, len: nat)
    requires sz.Valid() && Guard(sz, w, nw, len) && (w ==> Whole(sz, true, len))
    ensures Whole(sz, w, len)
    ensures var begin := sz.Half(true) - sz.Half(w); 0 <= begin && begin + sz.Of(w) <= len
  {
    sz.Bounds(w);
    sz.Bounds(nw);
  }

  lemma GuardRange(sz: Sizes, w: bool, nw: bool, len: nat)
    requires sz.Valid() && Guard(sz, w, nw, len)
    ensures 0 < sz.Step(w, nw) <= sz.Half(true) && sz.Half(true) + sz.Step(w, nw) < len
  {
    sz.Bounds(w);
    sz.Bounds(nw);
  }

  lemma StepUp(sz: Sizes, w: bool, nw: bool)
    requires sz.Valid()
    ensures sz.Quarter(w) + sz.Quarter(nw) == sz.Step(w, nw) >= sz.Half(false) > 0
  {
    sz.Bounds(w);
    sz.Bounds(nw);
  }

  lemma SizesOrdered(sz: Sizes)
    requires sz.Valid()
    ensures sz.short <= sz.long
  {
  }

  /** What is cut out of the buffer is the stream. */
  lemma CutIsInPlace(sz: Sizes, stream: seq<real>, moved: nat, pcm: seq<real>, b: Block)
    requires sz.Valid() && moved <= |stream| && pcm == stream[moved..] && Whole(sz, b.W, |pcm|)
    requires var size := sz.Of(b.W); var begin := sz.Half(true) - sz.Half(b.W);
      0 <= begin && begin + size <= |pcm| && b.pcm == pcm[begin..begin + size]
    ensures HoldsStream(sz, stream, b, moved)
  {
  }

  lemma AddMarked(sz: Sizes, blocks: seq<Block>, b: Block, moved: nat, total: nat)
    requires Running(sz, blocks, total) && NextAt(sz, blocks, b.lW, b.W, b.sequence, moved)
    requires !b.eos && b.granulepos == moved < total
    ensures Running(sz, blocks + [b], total)
    ensures NextAt(sz, blocks + [b], b.W, b.nW, b.sequence + 1, moved + sz.Step(b.W, b.nW))
  {
    var more := blocks + [b];
    NewCenter(sz, blocks, b, moved);
    hide Center;
    forall k | 0 <= k < |more|
      ensures Follows(sz, more, k) && Marked(sz, more, total, k)
    {
      if k < |blocks| {
        assert Follows(sz, blocks, k) && Marked(sz, blocks, total, k);
      }
    }
  }

  lemma AddLast(sz: Sizes, blocks: seq<Block>, b: Block, moved: nat, total: nat)
    requires Running(sz, blocks, total) && NextAt(sz, blocks, b.lW, b.W, b.sequence, moved)
    requires b.eos && b.granulepos == total <= moved
    ensures WholeStream(sz, blocks + [b], total)
  {
    var more := blocks + [b];
    NewCenter(sz, blocks, b, moved);
    hide Center;
    forall k | 0 <= k < |more|
      ensures Follows(sz, more, k)
      ensures k < |blocks| ==> Marked(sz, more, total, k)
    {
      if k < |blocks| {
        assert Follows(sz, blocks, k) && Marked(sz, blocks, total, k);
      }
    }
  }

  /** Where the end of input is after shifting the buffer by `mv`. */
  function NextEof(eof: int, mv: nat): int
  {
    if eof == 0 then 0 else if eof - mv <= 0 then -1 else eof - mv
  }

  /** Granules are counted, but never past the end of the input. */
  function NextGranule(gran: int, eof: int, centre: nat, mv: nat): int
  {
    gran + mv - (if eof != 0 && centre >= NextEof(eof, mv) then centre - NextEof(eof, mv) else 0)
  }

  /** Moving on by `mv` samples keeps the books, and the end cannot slide off the buffer unnoticed. */
  lemma StillPlaced(sz: Sizes, len: nat, moved: nat, total: nat, eof: int, gran: int, mv: nat)
    requires Placed(sz, len, moved, total, eof, gran) && eof >= 0
    requires mv <= sz.Half(true) && sz.Half(true) + mv <= len && (eof == 0 || sz.Half(true) < eof)
    ensures eof != 0 ==> NextEof(eof, mv) > 0
    ensures Placed(sz, len - mv, moved + mv, total, NextEof(eof, mv), NextGranule(gran, eof, sz.Half(true), mv))
  {
  }

  lemma LastPlaced(sz: Sizes, len: nat, moved: nat, total: nat, gran: int)
    ensures Placed(sz, len, moved, total, -1, gran)
  {
  }

  /** Before the last block the granule position is the centre, short of the end. */
  lemma NotYetEnd(sz: Sizes, len: nat, moved: nat, total: nat, eof: int, gran: int)
    requires sz.Valid() && Placed(sz, len, moved, total, eof, gran) && eof >= 0 && len > sz.Half(true)
    ensures eof == 0 || sz.Half(true) < eof ==> gran == moved < total
    ensures eof > 0 && sz.Half(true) >= eof ==> gran == total <= moved
  {
  }

  lemma AddNext(sz: Sizes, blocks: seq<Block>, b: Block, moved: nat, total: nat, len: nat, eof: int)
    requires sz.Valid() && Placed(sz, len, moved, total, eof, b.granulepos) && eof >= 0 && len > sz.Half(true)
    requires Running(sz, blocks, total) && NextAt(sz, blocks, b.lW, b.W, b.sequence, moved)
    requires b.eos <==> eof != 0 && sz.Half(true) >= eof
    ensures b.eos ==> b.granulepos == total && WholeStream(sz, blocks + [b], total)
    ensures !b.eos ==> Running(sz, blocks + [b], total)
    ensures !b.eos ==> NextAt(sz, blocks + [b], b.W, b.nW, b.sequence + 1, moved + sz.Step(b.W, b.nW))
  {
    NotYetEnd(sz, len, moved, total, eof, b.granulepos);
    if b.eos {
      AddLast(sz, blocks, b, moved, total);
    } else {
      AddMarked(sz, blocks, b, moved, total);
    }
  }

  // ---------------------------------------------------------------------------------------------
  // The encoder
  // ---------------------------------------------------------------------------------------------

  /** The buffer is the part of the stream that has not been shifted out. */
  ghost predicate Window(stream: seq<real>, moved: nat, pcm: seq<real>)
  {
    moved <= |stream| && pcm == stream[moved..]
  }

  /** The blocks handed out so far lead up to the present window state, or make up the whole stream. */
  ghost predicate Chained(sz: Sizes, blocks: seq<Block>, lw: bool, w: bool, sequence: int, moved: nat, total: nat,
                          eof: int)
  {
    if eof >= 0 then Running(sz, blocks, total) && NextAt(sz, blocks, lw, w, sequence, moved)
    else WholeStream(sz, blocks, total)
  }

  lemma StartGood(sz: Sizes, z: seq<real>)
    requires sz.Valid() && |z| == sz.Half(true)
    ensures |z| <= sz.long && Window(z, 0, z) && Placed(sz, |z|, 0, 0, 0, 0)
    ensures AllInPlace(sz, z, []) && Chained(sz, [], false, false, FIRST_SEQUENCE, 0, 0, 0)
  {
  }

  lemma FillGood(sz: Sizes, stream: seq<real>, moved: nat, pcm: seq<real>, fill: seq<real>, total: nat, gran: int,
                 lw: bool, w: bool, sequence: int)
    requires Window(stream, moved, pcm) && Placed(sz, |pcm|, moved, total, 0, gran) && |fill| == sz.Half(true)
    requires Chained(sz, [], lw, w, sequence, moved, total, 0)
    ensures |fill| <= |pcm|
    ensures var now := fill + pcm[|fill|..]; |now| == |pcm| && now[|fill|..] == pcm[|fill|..] && Window(now, moved, now)
    ensures AllInPlace(sz, fill + pcm[|fill|..], []) && stream == pcm
  {
  }

  /** Samples written before the end of input count; those written after it only lengthen the padding. */
  function Counted(total: nat, eof: int, more: nat): nat
  {
    if eof == 0 then total + more else total
  }

  lemma MoreGood(sz: Sizes, stream: seq<real>, moved: nat, pcm: seq<real>, samples: seq<real>, blocks: seq<Block>,
                 lw: bool, w: bool, sequence: int, total: nat, eof: int, gran: int)
    requires Window(stream, moved, pcm) && Placed(sz, |pcm|, moved, total, eof, gran) && sz.Half(true) <= |pcm|
    requires AllInPlace(sz, stream, blocks) && Chained(sz, blocks, lw, w, sequence, moved, total, eof)
    ensures Window(stream + samples, moved, pcm + samples) && AllInPlace(sz, stream + samples, blocks)
    ensures var now := Counted(total, eof, |samples|);
      Placed(sz, |pcm| + |samples|, moved, now, eof, gran) && Chained(sz, blocks, lw, w, sequence, moved, now, eof)
    ensures (pcm + samples)[sz.Half(true)..] == pcm[sz.Half(true)..] + samples
    ensures Whole(sz, true, |pcm|) ==> Whole(sz, true, |pcm| + |samples|)
  {
    MoreStream(sz, stream, blocks, samples);
    if eof == 0 {
      MoreTotal(sz, blocks, total, total + |samples|);
    }
    assert (stream + samples)[moved..] == pcm + samples;
  }

  lemma MorePadding(sz: Sizes, stream: seq<real>, moved: nat, pcm: seq<real>, samples: seq<real>, blocks: seq<Block>)
    requires Window(stream, moved, pcm) && AllInPlace(sz, stream, blocks) && sz.Half(true) <= |pcm|
    ensures Window(stream + samples, moved, pcm + samples) && AllInPlace(sz, stream + samples, blocks)
    ensures (pcm + samples)[sz.Half(true)..] == pcm[sz.Half(true)..] + samples
    ensures Whole(sz, true, |pcm|) ==> Whole(sz, true, |pcm| + |samples|)
  {
    MoreStream(sz, stream, blocks, samples);
    assert (stream + samples)[moved..] == pcm + samples;
  }

  /** From place `at` on the stream is as it was, with `more` added. */
  ghost predicate Goes(stream: seq<real>, was: seq<real>, at: nat, more: seq<real>)
  {
    at <= |was| && at <= |stream| && stream[at..] == was[at..] + more
  }

  lemma GoesOn(was: seq<real>, mid: seq<real>, now: seq<real>, at: nat, a: seq<real>, b: seq<real>)
    requires Goes(mid, was, at, a) && Goes(now, mid, at, b)
    ensures Goes(now, was, at, a + b)
  {
  }

  lemma GoesBy(was: seq<real>, at: nat, more: seq<real>)
    requires at <= |was|
    ensures Goes(was + more, was, at, more) && Goes(was, was, at, [])
  {
  }

  /** The samples that count as input once the end has been marked behind all `len` in the buffer: those of an
      earlier padding too. */
  function Ended(total: nat, eof: int, len: nat): int
  {
    if eof == 0 then total else total + len - eof
  }

  lemma EofGood(sz: Sizes, len: nat, moved: nat, total: nat, eof: int, gran: int, blocks: seq<Block>, lw: bool,
                w: bool, sequence: int)
    requires sz.Valid() && Placed(sz, len, moved, total, eof, gran) && (eof == 0 || sz.Half(true) <= eof)
    requires Chained(sz, blocks, lw, w, sequence, moved, total, eof)
    ensures Ended(total, eof, len) >= total && len > 0
    ensures Placed(sz, len + 3 * sz.long, moved, Ended(total, eof, len), len, gran)
    ensures Chained(sz, blocks, lw, w, sequence, moved, Ended(total, eof, len), len)
  {
    sz.Bounds(true);
    MoreTotal(sz, blocks, total, Ended(total, eof, len));
  }

  /** The end can be marked again exactly while the centre has not passed it: after that the granule position
      stays behind. */
  lemma EofAgain(sz: Sizes, len: nat, moved: nat, total: nat, eof: int, gran: int)
    requires sz.Valid() && Placed(sz, len, moved, total, eof, gran) && eof > 0
    ensures Ended(total, eof, len) >= 0
    ensures Placed(sz, len + 3 * sz.long, moved, Ended(total, eof, len), len, gran) <==> sz.Half(true) <= eof
  {
    sz.Bounds(true);
  }

  /** After the end of input there is always enough to shape the next block. */
  lemma NeverStarves(sz: Sizes, len: nat, moved: nat, total: nat, eof: int, gran: int, w: bool, nw: bool)
    requires sz.Valid() && Placed(sz, len, moved, total, eof, gran) && eof > 0
    ensures Guard(sz, w, nw, len)
  {
    sz.Bounds(w);
    sz.Bounds(nw);
  }

  /** A block cut at the current centre is the next block, and the last one exactly at the end. */
  lemma CutGood(sz: Sizes, stream: seq<real>, moved: nat, pcm: seq<real>, blocks: seq<Block>, total: nat, eof: int,
                b: Block)
    requires sz.Valid() && Window(stream, moved, pcm) && Placed(sz, |pcm|, moved, total, eof, b.granulepos) && eof >= 0
    requires AllInPlace(sz, stream, blocks) && Chained(sz, blocks, b.lW, b.W, b.sequence, moved, total, eof)
    requires Guard(sz, b.W, b.nW, |pcm|) && Whole(sz, b.W, |pcm|)
    requires var size := sz.Of(b.W); var begin := sz.Half(true) - sz.Half(b.W);
      0 <= begin && begin + size <= |pcm| && b.pcm == pcm[begin..begin + size]
    requires b.eos <==> eof != 0 && sz.Half(true) >= eof
    ensures AllInPlace(sz, stream, blocks + [b]) && HoldsStream(sz, stream, b, moved)
    ensures b.eos ==>
      b.granulepos == total && eof > 0 && Chained(sz, blocks + [b], b.lW, b.W, b.sequence + 1, moved, total, -1)
    ensures b.eos ==> Placed(sz, |pcm|, moved, total, -1, b.granulepos)
    ensures !b.eos ==> Moves(sz, |pcm|, moved, total, eof, b.granulepos, b.W, b.nW, b.sequence + 1, blocks + [b])
  {
    CutIsInPlace(sz, stream, moved, pcm, b);
    hide Guard, Whole, HoldsStream, AllInPlace, Placed, Running, NextAt, WholeStream, Moves, Sizes.Valid, Sizes.Half;
    hide Sizes.Quarter, Sizes.Of;
    AddInPlace(sz, stream, blocks, b, moved);
    CutMoves(sz, |pcm|, moved, total, eof, blocks, b);
  }

  lemma CutMoves(sz: Sizes, len: nat, moved: nat, total: nat, eof: int, blocks: seq<Block>, b: Block)
    requires sz.Valid() && Placed(sz, len, moved, total, eof, b.granulepos) && eof >= 0
    requires Running(sz, blocks, total) && NextAt(sz, blocks, b.lW, b.W, b.sequence, moved)
    requires Guard(sz, b.W, b.nW, len)
    requires b.eos <==> eof != 0 && sz.Half(true) >= eof
    ensures b.eos ==>
      b.granulepos == total && eof > 0 && Chained(sz, blocks + [b], b.lW, b.W, b.sequence + 1, moved, total, -1)
    ensures b.eos ==> Placed(sz, len, moved, total, -1, b.granulepos)
    ensures !b.eos ==> Moves(sz, len, moved, total, eof, b.granulepos, b.W, b.nW, b.sequence + 1, blocks + [b])
  {
    hide Placed, Running, NextAt, WholeStream, Guard, Whole, Sizes.Valid, Sizes.Half, Sizes.Step;
    GuardBefore(sz, b.W, b.nW, len);
    GuardRange(sz, b.W, b.nW, len);
    AddNext(sz, blocks, b, moved, total, len, eof);
    LastPlaced(sz, len, moved, total, b.granulepos);
    if !b.eos {
      StillPlaced(sz, len, moved, total, eof, b.granulepos, sz.Step(b.W, b.nW));
    }
  }

  /** The state can move on by one step without losing track of the stream. */
  ghost predicate Moves(sz: Sizes, len: nat, moved: nat, total: nat, eof: int, gran: int, w: bool, nw: bool,
                        sequence: int, blocks: seq<Block>)
  {
    var mv := sz.Step(w, nw);
    && sz.Half(true) <= len - mv && Whole(sz, nw, len - mv) && NextEof(eof, mv) >= 0
    && (eof > 0 <==> NextEof(eof, mv) > 0)
    && Placed(sz, len - mv, moved + mv, total, NextEof(eof, mv), NextGranule(gran, eof, sz.Half(true), mv))
    && Chained(sz, blocks, w, nw, sequence, moved + mv, total, NextEof(eof, mv))
  }

  lemma WindowMoves(stream: seq<real>, moved: nat, pcm: seq<real>, mv: nat)
    requires Window(stream, moved, pcm) && mv <= |pcm|
    ensures Window(stream, moved + mv, pcm[mv..])
  {
  }

  class VorbisAnalysis {
    const sz: Sizes
    var pcm: seq<real>        // the valid part of the buffer; pcm_current is its length
    var storage: nat
    var lW: bool
    var W: bool
    var nW: bool
    var centerW: nat
    var eofflag: int          // 0 until end of input, then its place in the buffer; -1 when done
    var granulepos: int
    var sequence: int
    var preextrapolate: bool

    ghost var stream: seq<real>     // everything that was ever in the buffer
    ghost var moved: nat            // how much of it has been shifted out
    ghost var total: nat            // samples written by the caller
    ghost var emitted: seq<Block>

    ghost predicate Valid()
      reads this
    {
      && sz.Valid() && centerW == sz.Half(true) <= |pcm| <= storage && (W ==> Whole(sz, true, |pcm|))
      && Window(stream, moved, pcm) && Placed(sz, |pcm|, moved, total, eofflag, granulepos)
      && (!preextrapolate ==> emitted == [] && eofflag == 0)
      && AllInPlace(sz, stream, emitted)
      && Chained(sz, emitted, lW, W, sequence, moved, total, eofflag)
    }

    /** The next window size; with one block size, and where the search found nothing, short. */
    function NextSize(search: Search): bool
    {
      search.Boundary? && search.long && sz.short != sz.long
    }

    /** Can a block be shaped? After the end of input always, until the last one is out. */
    ghost predicate Enough(search: Search)
      reads this
    {
      && preextrapolate && eofflag >= 0
      && (eofflag > 0 || (search.Boundary? && Guard(sz, W, NextSize(search), |pcm|)))
    }

    constructor (sizes: Sizes)
      requires sizes.Valid()
      ensures Valid() && sz == sizes && total == 0 && emitted == [] && eofflag == 0
    {
      sz := sizes;
      storage, centerW := sizes.long, sizes.Half(true);
      var zeros := seq(sizes.Half(true), i => 0.0);
      StartGood(sizes, zeros);
      pcm, stream := zeros, zeros;
      lW, W, nW, preextrapolate := false, false, false, false;
      eofflag, granulepos, sequence := 0, 0, FIRST_SEQUENCE;
      moved, total, emitted := 0, 0, [];
    }

    /** Make room for `vals` more samples. */
    method Buffer(vals: nat)
      requires Valid()
      modifies `storage
      ensures Valid() && (vals > 0 ==> |pcm| + vals <= storage)
    {
      hide Window, Placed, AllInPlace, Chained, Whole, Sizes.Valid, Sizes.Half;
      if |pcm| + vals >= storage {
        storage := |pcm| + vals * 2;
      }
    }

    /** Reverse extrapolation may rewrite the samples before the first centre, never later ones. */
    method Preextrapolate(fill: seq<real>)
      requires Valid() && |fill| == centerW && !preextrapolate
      modifies `pcm, `stream, `preextrapolate
      ensures Valid() && preextrapolate && |pcm| == old(|pcm|)
      ensures centerW <= |pcm| && pcm[centerW..] == old(pcm[centerW..])
      ensures Goes(stream, old(stream), centerW, [])
    {
      FillGood(sz, stream, moved, pcm, fill, total, granulepos, lW, W, sequence);
      hide Window, Placed, AllInPlace, Chained, Whole, Sizes.Valid, Sizes.Half;
      preextrapolate := true;
      if |pcm| - centerW > 32 {
        pcm := fill + pcm[centerW..];
        stream := pcm;
      }
    }

    /** The caller put `samples` in the buffer; false when they cannot have fitted. */
    method Wrote(samples: seq<real>, fill: seq<real>) returns (ok: bool)
      requires Valid() && samples != [] && |fill| == centerW
      modifies this
      ensures Valid() && eofflag == old(eofflag) && ok == (old(|pcm|) + |samples| <= old(storage))
      ensures centerW == old(centerW)
      ensures emitted == old(emitted) && storage == old(storage)
      ensures ok ==> total == Counted(old(total), eofflag, |samples|) && pcm[centerW..] == old(pcm[centerW..]) + samples
      ensures !ok ==> total == old(total) && pcm == old(pcm)
      ensures Goes(stream, old(stream), centerW, if ok then samples else [])
    {
      hide Window, Placed, AllInPlace, Chained, Whole, Sizes.Valid, Sizes.Half, Goes;
      StreamLong();
      GoesBy(stream, centerW, samples);
      if |pcm| + |samples| > storage {
        return false;
      }
      ghost var was := stream;
      MoreGood(sz, stream, moved, pcm, samples, emitted, lW, W, sequence, total, eofflag, granulepos);
      pcm, stream, total := pcm + samples, stream + samples, Counted(total, eofflag, |samples|);
      if !preextrapolate && |pcm| - centerW > sz.long {
        Preextrapolate(fill);
        GoesOn(was, was + samples, stream, centerW, samples, []);
        assert samples + [] == samples;
      }
      return true;
    }

    lemma StreamLong()
      requires Valid()
      ensures centerW <= |stream|
    {
      hide Placed, AllInPlace, Chained, Whole, Sizes.Valid, Sizes.Half;
    }

    /** No more input: pad with three long blocks of extrapolated samples and remember the end. It may be said
        again before the centre has passed the end; then the padding of the first time counts as input. */
    method WroteEof(fill: seq<real>, padding: seq<real>)
      requires Valid() && |fill| == centerW && |padding| == 3 * sz.long > 0
      requires eofflag == 0 || centerW <= eofflag
      modifies this
      ensures Valid() && eofflag > 0 && preextrapolate && emitted == old(emitted) && moved == old(moved)
      ensures total == Ended(old(total), old(eofflag), old(|pcm|))
      ensures centerW == old(centerW) <= eofflag <= |pcm| && pcm[centerW..eofflag] == old(pcm[centerW..])
      ensures pcm[eofflag..] == padding && Goes(stream, old(stream), centerW, padding)
    {
      hide Window, Placed, AllInPlace, Chained, Whole, Sizes.Valid, Sizes.Half, Counted, Goes;
      StreamLong();
      GoesBy(stream, centerW, []);
      ghost var was := stream;
      if !preextrapolate {
        Preextrapolate(fill);
      }
      ghost var mid := stream;
      Pad(padding);
      GoesOn(was, mid, stream, centerW, [], padding);
      assert [] + padding == padding;
    }

    /** Remember the end, and pad. */
    method Pad(padding: seq<real>)
      requires Valid() && |padding| == 3 * sz.long > 0 && preextrapolate && (eofflag == 0 || centerW <= eofflag)
      modifies this
      ensures Valid() && eofflag > 0 && preextrapolate && emitted == old(emitted) && moved == old(moved)
      ensures total == Ended(old(total), old(eofflag), old(|pcm|))
      ensures centerW == old(centerW) <= eofflag <= |pcm| && pcm[centerW..eofflag] == old(pcm[centerW..])
      ensures pcm[eofflag..] == padding && Goes(stream, old(stream), centerW, padding)
    {
      hide Window, Placed, AllInPlace, Chained, Whole, Sizes.Valid, Sizes.Half, Counted, Goes;
      StreamLong();
      GoesBy(stream, centerW, padding);
      Buffer(3 * sz.long);
      MorePadding(sz, stream, moved, pcm, padding, emitted);
      EofGood(sz, |pcm|, moved, total, eofflag, granulepos, emitted, lW, W, sequence);
      total := Ended(total, eofflag, |pcm|);
      eofflag := |pcm|;
      pcm, stream := pcm + padding, stream + padding;
    }

    /** Hand out the next block if possible: the stream's samples around its centre, all of them. After
        the end of input a block always comes, and the one that is marked last carries the number of samples
        written. */
    method Blockout(search: Search) returns (block: Option<Block>)
      requires Valid()
      modifies this
      ensures Valid() && total == old(total) && stream == old(stream)
      ensures block == None ==>
        emitted == old(emitted) && pcm == old(pcm) && moved == old(moved) && eofflag == old(eofflag)
      ensures block.Some? ==> emitted == old(emitted) + [block.value]
      ensures block.Some? <==> old(Enough(search))
      ensures block.Some? ==>
        block.value.lW == old(lW) && block.value.W == old(W) && block.value.nW == NextSize(search)
      ensures block.Some? ==> (block.value.nW <==> search == Boundary(true) && sz.short < sz.long)
      ensures block.Some? && !block.value.eos ==> lW == block.value.W && W == block.value.nW
      ensures block.Some? ==> HoldsStream(sz, old(stream), block.value, old(moved)) && stream == old(stream)
      ensures block.Some? && block.value.eos ==>
        old(eofflag) > 0 && eofflag == -1 && block.value.granulepos == total
      ensures block.Some? && !block.value.eos ==>
        (old(eofflag) > 0 <==> eofflag > 0) && eofflag >= 0 && moved >= old(moved) + sz.Half(false)
    {
      hide Window, Placed, AllInPlace, Chained, Sizes.Valid, Sizes.Half, HoldsStream, Guard, Whole;
      SizesOrdered(sz);
      var ready := Ready(search);
      if ready {
        var vb := EmitBlock();
        return Some(vb);
      }
      return None;
    }

    lemma EofRange()
      requires Valid()
      ensures eofflag >= -1
    {
      hide Window, AllInPlace, Chained, Whole, Sizes.Valid, Sizes.Half;
    }

    /** Choose the next window size; is enough of the stream there to shape the block now? */
    method Ready(search: Search) returns (ready: bool)
      requires Valid()
      modifies `nW
      ensures Valid() && ready == Enough(search)
      ensures ready ==> nW == NextSize(search) && Guard(sz, W, nW, |pcm|)
    {
      hide Window, Placed, AllInPlace, Chained, Whole, Sizes.Valid, Sizes.Half, Sizes.Quarter;
      EofRange();
      if !preextrapolate || eofflag == -1 {
        return false;
      }
      if search == Starved && eofflag == 0 {
        return false;
      }
      var next := if search == Starved || sz.short == sz.long then false else search.long;
      if eofflag > 0 {
        NeverStarves(sz, |pcm|, moved, total, eofflag, granulepos, W, next);
      }
      nW := next;
      var centerNext := centerW + sz.Quarter(W) + sz.Quarter(next);
      return |pcm| >= centerNext + sz.Half(next);
    }

    /** Cut the block around the current centre, then finish or move on. */
    method EmitBlock() returns (vb: Block)
      requires Valid() && eofflag >= 0 && preextrapolate && Guard(sz, W, nW, |pcm|)
      modifies this
      ensures Valid() && total == old(total) && emitted == old(emitted) + [vb]
      ensures vb.lW == old(lW) && vb.W == old(W) && vb.nW == old(nW)
      ensures HoldsStream(sz, old(stream), vb, old(moved)) && stream == old(stream)
      ensures vb.eos ==> old(eofflag) > 0 && eofflag == -1 && vb.granulepos == total
      ensures !vb.eos ==> lW == vb.W && W == vb.nW
      ensures !vb.eos ==>
        (old(eofflag) > 0 <==> eofflag > 0) && eofflag >= 0 && moved >= old(moved) + sz.Half(false)
    {
      hide Window, Placed, AllInPlace, Chained, Moves, HoldsStream, Guard, Whole, Sizes.Valid, Sizes.Half,
           Sizes.Quarter, Sizes.Of, Sizes.Step;
      vb := CutBlock();
      sequence, emitted := sequence + 1, emitted + [vb];
      if vb.eos {
        eofflag := -1;
      } else {
        MoveOn();
      }
    }

    /** The block around the current centre; the last one once the centre has reached the end. */
    method CutBlock() returns (vb: Block)
      requires Valid() && eofflag >= 0 && Guard(sz, W, nW, |pcm|)
      ensures AllInPlace(sz, stream, emitted + [vb]) && HoldsStream(sz, stream, vb, moved)
      ensures vb.lW == lW && vb.W == W && vb.nW == nW
      ensures vb.eos ==> eofflag > 0 && vb.granulepos == total && Placed(sz, |pcm|, moved, total, -1, granulepos)
      ensures vb.eos ==> Chained(sz, emitted + [vb], lW, W, sequence + 1, moved, total, -1)
      ensures !vb.eos ==>
        Moves(sz, |pcm|, moved, total, eofflag, granulepos, W, nW, sequence + 1, emitted + [vb])
    {
      hide Window, Placed, AllInPlace, Chained, Moves, Guard, Whole, HoldsStream, Sizes.Valid, Sizes.Half,
           Sizes.Quarter,
           Sizes.Of;
      CutsInside(sz, W, nW, |pcm|);
      var size := sz.Of(W);
      var beginW := centerW - sz.Half(W);
      vb := Block(lW, W, nW, granulepos, sequence, eofflag != 0 && centerW >= eofflag, pcm[beginW..beginW + size]);
      CutGood(sz, stream, moved, pcm, emitted, total, eofflag, vb);
    }

    /** Shift the buffer so that the next centre is where this one was. */
    method MoveOn()
      requires sz.Valid() && centerW == sz.Half(true) && |pcm| <= storage && preextrapolate
      requires Window(stream, moved, pcm) && AllInPlace(sz, stream, emitted)
      requires Moves(sz, |pcm|, moved, total, eofflag, granulepos, W, nW, sequence, emitted)
      modifies this
      ensures Valid() && total == old(total) && emitted == old(emitted) && stream == old(stream)
      ensures lW == old(W) && W == old(nW)
      ensures (old(eofflag) > 0 <==> eofflag > 0) && eofflag >= 0 && moved >= old(moved) + sz.Half(false)
    {
      hide Window, Placed, AllInPlace, Chained, NextEof, NextGranule, Whole, Sizes.Valid, Sizes.Half, Sizes.Quarter,
           Sizes.Step;
      StepUp(sz, W, nW);
      var newCenter := sz.Half(true);
      var movement := centerW + sz.Quarter(W) + sz.Quarter(nW) - newCenter;
      if movement > 0 {
        WindowMoves(stream, moved, pcm, movement);
        var eof, gran := Recount(movement, newCenter);
        Shift(movement, newCenter, eof, gran);
      }
    }

    method Shift(movement: nat, newCenter: nat, eof: int, gran: int)
      requires movement <= |pcm|
      modifies `pcm, `moved, `lW, `W, `centerW, `eofflag, `granulepos
      ensures pcm == old(pcm)[movement..] && moved == old(moved) + movement
      ensures lW == old(W) && W == nW && centerW == newCenter && eofflag == eof && granulepos == gran
    {
      pcm, moved := pcm[movement..], moved + movement;
      lW, W, centerW := W, nW, newCenter;
      eofflag, granulepos := eof, gran;
    }

    /** The end marker and the granule position after a shift; no padding is counted as input. */
    method Recount(movement: nat, newCenter: nat) returns (eof: int, gran: int)
      ensures eof == NextEof(eofflag, movement) && gran == NextGranule(granulepos, eofflag, newCenter, movement)
    {
      eof, gran := eofflag, granulepos + movement;
      if eof != 0 {
        eof := eof - movement;
        if eof <= 0 {
          eof := -1;
        }
        if newCenter >= eof {
          gran := gran - (newCenter - eof);
        }
      }
    }
  }

  /** The block after block `k` is long exactly where the search, asked at block `k`, answers long and there are long
      blocks to choose. */
  ghost predicate AsAsked(sz: Sizes, search: nat -> Search, blocks: seq<Block>, k: nat)
    requires k < |blocks|
  {
    && (blocks[k].nW <==> search(k) == Boundary(true) && sz.short < sz.long)
    && (k + 1 < |blocks| ==> blocks[k + 1].W == blocks[k].nW && blocks[k + 1].lW == blocks[k].W)
  }

  lemma AskedMore(sz: Sizes, search: nat -> Search, blocks: seq<Block>, b: Block)
    requires forall k :: 0 <= k < |blocks| ==> AsAsked(sz, search, blocks, k)
    requires b.nW <==> search(|blocks|) == Boundary(true) && sz.short < sz.long
    requires |blocks| > 0 ==> b.W == blocks[|blocks| - 1].nW && b.lW == blocks[|blocks| - 1].W
    ensures forall k :: 0 <= k < |blocks + [b]| ==> AsAsked(sz, search, blocks + [b], k)
  {
    forall k | 0 <= k < |blocks + [b]|
      ensures AsAsked(sz, search, blocks + [b], k)
    {
      if k < |blocks| {
        assert AsAsked(sz, search, blocks, k);
      }
    }
  }

  /** Keep asking for blocks after the end of input, whatever the envelope search answers: every call
      delivers one, the last is reached, and the stream is complete. */
  method FinishStream(v: VorbisAnalysis, search: nat -> Search) returns (blocks: seq<Block>)
    requires v.Valid() && v.eofflag > 0
    modifies v
    ensures v.Valid() && v.eofflag == -1 && v.total == old(v.total) && v.emitted == old(v.emitted) + blocks
    ensures WholeStream(v.sz, v.emitted, v.total) && v.stream == old(v.stream)
    ensures forall k :: 0 <= k < |blocks| ==> AsAsked(v.sz, search, blocks, k)
  {
    hide Window, Placed, AllInPlace, Chained, WholeStream, HoldsStream, Guard, Whole, Sizes.Valid, Sizes.Half;
    blocks := [];
    var done := false;
    while !done
      invariant v.Valid() && v.total == old(v.total) && v.emitted == old(v.emitted) + blocks
      invariant v.stream == old(v.stream)
      invariant if done then v.eofflag == -1 else v.eofflag > 0
      invariant forall k :: 0 <= k < |blocks| ==> AsAsked(v.sz, search, blocks, k)
      invariant !done && |blocks| > 0 ==> v.W == blocks[|blocks| - 1].nW && v.lW == blocks[|blocks| - 1].W
      decreases !done, v.sz.Half(true) + v.total - v.moved
    {
      var n := |blocks|;
      StillInside(v);
      var b := v.Blockout(search(n));
      AskedMore(v.sz, search, blocks, b.value);
      blocks := blocks + [b.value];
      done := b.value.eos;
    }
    EndsWhole(v);
  }

  lemma StillInside(v: VorbisAnalysis)
    requires v.Valid() && v.eofflag > 0
    ensures v.moved < v.sz.Half(true) + v.total && v.sz.Half(false) > 0
  {
    hide Window, AllInPlace, Chained, Sizes.Valid, Sizes.Half;
    v.sz.Bounds(false);
  }

  lemma EndsWhole(v: VorbisAnalysis)
    requires v.Valid() && v.eofflag < 0
    ensures WholeStream(v.sz, v.emitted, v.total)
  {
    hide Window, AllInPlace, Placed, WholeStream;
  }
}
