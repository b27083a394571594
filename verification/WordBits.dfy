/** `bitreverse` on a 32-bit word. */
module WordBits {
  import opened BitMath

  /** Swap halves, then bytes, nibbles, pairs and neighbours. */
  function BitReverse(x: bv32): bv32
  {
    var a := ((x >> 16) & 0x0000ffff) | ((x << 16) & 0xffff0000);
    var b := ((a >> 8) & 0x00ff00ff) | ((a << 8) & 0xff00ff00);
    var c := ((b >> 4) & 0x0f0f0f0f) | ((b << 4) & 0xf0f0f0f0);
    var d := ((c >> 2) & 0x33333333) | ((c << 2) & 0xcccccccc);
    ((d >> 1) & 0x55555555) | ((d << 1) & 0xaaaaaaaa)
  }

  /** Five masked swaps put every bit at the mirrored place. */
  lemma EveryBitMirrored(x: bv32, i: bv5)
    ensures (BitReverse(x) >> i) & 1 == (x >> (31 - i)) & 1
  {
  }

  lemma ReversingTwice(x: bv32)
    ensures BitReverse(BitReverse(x)) == x
  {
  }

  lemma BitOfDouble(a: nat, b: nat, i: nat)
    requires b <= 1
    ensures Bit(2 * a + b, i) == if i == 0 then b else Bit(a, i - 1)
  {
    if i > 0 {
      DivDiv(2 * a + b, 2, Pow2(i - 1));
      DivModUnique(2 * a + b, a, 2, b);
    }
  }

  /** The same for the numbers that the tables are built from: bit by bit, a reversed word is the mirror image. */
  lemma {:induction false} ReverseMirrors(w: nat, n: nat, i: nat)
    requires i < n
    ensures Bit(Reverse(w, n), i) == Bit(w, n - 1 - i)
    decreases n
  {
    hide Bit;
    BitOfDouble(Reverse(w, n - 1), Bit(w, n - 1), i);
    if i > 0 {
      ReverseMirrors(w, n - 1, i - 1);
    }
  }

  // ---------------------------------------------------------------------------------------------
  // Words as numbers
  // ---------------------------------------------------------------------------------------------

  /** `i` as a shift count. */
  function Shift(i: nat): bv5
    requires i < 32
  {
    if i == 0 then 0 else Shift(i - 1) + 1
  }

  lemma {:induction false} ShiftAdds(i: nat, j: nat)
    requires i + j < 32
    ensures Shift(i + j) == Shift(i) + Shift(j)
  {
    if i > 0 {
      ShiftAdds(i - 1, j);
    }
  }

  lemma Opposite(i: nat)
    requires i < 32
    ensures Shift(31 - i) == 31 - Shift(i)
  {
    ShiftAdds(31 - i, i);
    ShiftAdds(1, 1);
    ShiftAdds(2, 1);
    ShiftAdds(3, 3);
    ShiftAdds(6, 1);
    ShiftAdds(7, 7);
    ShiftAdds(14, 1);
    ShiftAdds(15, 15);
    ShiftAdds(30, 1);
  }

  /** Bit `i` of a word. */
  predicate Flag(x: bv32, i: nat)
    requires i < 32
  {
    (x >> Shift(i)) & 1 == 1
  }

  /** The bits of a word, lowest first. */
  function BitsOf(x: bv32): (b: seq<bool>)
    ensures |b| == 32
  {
    seq(32, i requires 0 <= i < 32 => Flag(x, i))
  }

  /** The number that a word stands for. */
  function Number(x: bv32): nat
  {
    FromBits(BitsOf(x))
  }

  lemma FlagMirrored(x: bv32, i: nat)
    requires i < 32
    ensures Flag(BitReverse(x), i) == Flag(x, 31 - i)
  {
    hide BitReverse;
    Opposite(i);
    EveryBitMirrored(x, Shift(i));
  }

  lemma {:induction false} MsbIsMirrored(w: nat, n: nat, i: nat)
    requires i < n
    ensures MsbBits(w, n)[i] == ToBits(w, n)[n - 1 - i]
  {
    if i < n - 1 {
      MsbIsMirrored(w / 2, n - 1, i);
    }
  }

  /** The masked swaps do to a word what the reversal that the tables are built with does to its number. */
  lemma SwapsReverse(x: bv32)
    ensures Number(BitReverse(x)) == Reverse(Number(x), 32)
  {
    hide BitReverse, Flag, FromBits, ToBits, MsbBits, Pow2, Reverse;
    var v := Number(x);
    ToFromBits(BitsOf(x));
    forall i | 0 <= i < 32
      ensures BitsOf(BitReverse(x))[i] == MsbBits(v, 32)[i]
    {
      FlagMirrored(x, i);
      MsbIsMirrored(v, 32, i);
    }
    ReverseBits(v, 32);
    assert BitsOf(BitReverse(x)) == ToBits(Reverse(v, 32), 32);
    FromToBits(Reverse(v, 32), 32);
  }
}
