/** Audio blocks as they travel from the encoder's blocking to the decoder's overlap-add. */
module Blocks {
  import opened BitMath

  lemma Quarters(n: nat)
    requires n % 64 == 0
    ensures n == 4 * (n / 4) && n / 2 == 2 * (n / 4)
  {
    var q := n / 64;
    DivMod(n, 64);
    DivModUnique(n, 16 * q, 4, 0);
    DivModUnique(n, 32 * q, 2, 0);
  }

  /** The two block sizes of a stream; powers of two from 64 to 8192 in every real one. */
  datatype Sizes = Sizes(short: nat, long: nat)
  {
    ghost predicate Valid()
    {
      64 <= short <= long && short % 64 == 0 && long % 64 == 0
    }

    function Of(long?: bool): nat
    {
      if long? then long else short
    }

    function Half(long?: bool): nat
    {
      Of(long?) / 2
    }

    function Quarter(long?: bool): nat
    {
      Of(long?) / 4
    }

    /** Samples between the centres of two neighbouring blocks. */
    function Step(w: bool, w': bool): nat
    {
      Quarter(w) + Quarter(w')
    }

    lemma Bounds(w: bool)
      requires Valid()
      ensures Of(w) == 4 * Quarter(w) && Half(w) == 2 * Quarter(w)
      ensures 16 <= Quarter(false) <= Quarter(w) <= Quarter(true)
      ensures Of(true) == long == 4 * Quarter(true) && Half(true) == 2 * Quarter(true)
      ensures Of(false) == short == 4 * Quarter(false) && Half(false) == 2 * Quarter(false)
    {
      Quarters(short);
      Quarters(long);
    }
  }

  datatype Block = Block(lW: bool, W: bool, nW: bool, granulepos: int, sequence: int, eos: bool, pcm: seq<real>)

  /** Samples between the centres of block 0 and block `k`. */
  ghost function Center(sz: Sizes, blocks: seq<Block>, k: nat): nat
    requires k < |blocks|
  {
    if k == 0 then 0 else Center(sz, blocks, k - 1) + sz.Step(blocks[k - 1].W, blocks[k].W)
  }

  lemma {:induction false} CenterPrefix(sz: Sizes, blocks: seq<Block>, more: seq<Block>, k: nat)
    requires k < |blocks|
    ensures Center(sz, blocks + more, k) == Center(sz, blocks, k)
  {
    if k > 0 {
      CenterPrefix(sz, blocks, more, k - 1);
    }
  }

  /** Packets 0 to 2 of a stream are its headers. */
  const FIRST_SEQUENCE := 3

  /** Block `k` follows on from block `k - 1`. */
  ghost predicate Follows(sz: Sizes, blocks: seq<Block>, k: nat)
    requires k < |blocks|
  {
    if k == 0 then blocks[0].sequence == FIRST_SEQUENCE
    else
      && blocks[k].W == blocks[k - 1].nW && blocks[k].lW == blocks[k - 1].W
      && blocks[k].sequence == blocks[k - 1].sequence + 1
  }

  /** Block `k` is not the last one, and marks its own centre. */
  ghost predicate Marked(sz: Sizes, blocks: seq<Block>, total: nat, k: nat)
    requires k < |blocks|
  {
    !blocks[k].eos && blocks[k].granulepos == Center(sz, blocks, k) < total
  }

  /** A whole stream of `n` samples: every block but the last marks its own centre, which lies
      before the end; the last one marks the end, which its centre has reached. */
  ghost predicate WholeStream(sz: Sizes, blocks: seq<Block>, n: nat)
  {
    && |blocks| > 0
    && (forall k :: 0 <= k < |blocks| ==> Follows(sz, blocks, k))
    && (forall k :: 0 <= k < |blocks| - 1 ==> Marked(sz, blocks, n, k))
    && var last := |blocks| - 1;
       blocks[last].eos && blocks[last].granulepos == n <= Center(sz, blocks, last)
  }
}
