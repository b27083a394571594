/** The part of libogg's bit packer that the codec relies on: bits leave the reader in the
    order in which they entered the writer. */
module BitBuffer {
  import opened BitMath

  class OggPackBuffer {
    var bits: seq<bool>   // everything written so far
    var pos: nat          // read cursor, in bits

    ghost predicate Valid()
      reads this
    {
      pos <= |bits|
    }

    ghost function Rest(): (r: seq<bool>)
      requires Valid()
      reads this
    {
      bits[pos..]
    }

    constructor (content: seq<bool>)
      ensures Valid() && bits == content && pos == 0
    {
      bits, pos := content, 0;
    }

    /** Append the low `n` bits of `value`, least significant first. */
    method Write(value: nat, n: nat)
      modifies this
      ensures bits == old(bits) + ToBits(value, n) && pos == old(pos)
    {
      bits := bits + ToBits(value, n);
    }

    /** The next `n` bits as a number, or -1 when fewer than `n` are left. */
    method Look(n: nat) returns (v: int)
      requires Valid()
      ensures v == if n <= |Rest()| then FromBits(Rest()[..n]) else -1
    {
      if pos + n <= |bits| {
        assert Rest()[..n] == bits[pos..pos + n];
        v := FromBits(bits[pos..pos + n]);
      } else {
        v := -1;
      }
    }

    /** Skip `n` bits. */
    method Adv(n: nat)
      requires Valid() && n <= |Rest()|
      modifies this
      ensures Valid() && bits == old(bits) && pos == old(pos) + n && Rest() == old(Rest())[n..]
    {
      pos := pos + n;
    }

    /** The next `n` bits as a number, and skip them; -1, at the end, when fewer are left. */
    method Read(n: nat) returns (v: int)
      requires Valid()
      modifies this
      ensures Valid() && bits == old(bits)
      ensures if n <= |old(Rest())| then v == FromBits(old(Rest())[..n]) && Rest() == old(Rest())[n..]
              else v == -1 && Rest() == []
    {
      v := Look(n);
      if v < 0 {
        pos := |bits|;
      } else {
        Adv(n);
      }
    }

    /** The next `n` bits; where the packet is known to go on with `value` and then `more`, that value. */
    method ReadBack(n: nat, ghost known: bool, ghost value: nat, ghost more: seq<bool>) returns (v: int)
      requires Valid()
      requires known ==> value < Pow2(n) && Rest() == ToBits(value, n) + more
      modifies this
      ensures Valid() && bits == old(bits) && -1 <= v < Pow2(n) && old(pos) <= pos
      ensures v == -1 <==> n > |old(Rest())|
      ensures v == -1 ==> Rest() == []
      ensures v >= 0 ==> pos == old(pos) + n && v == FromBits(old(Rest())[..n]) && Rest() == old(Rest())[n..]
      ensures known ==> v == value && Rest() == more
    {
      hide ToBits, FromBits, Pow2;
      if known {
        FromToBits(value, n);
        assert (ToBits(value, n) + more)[..n] == ToBits(value, n) && (ToBits(value, n) + more)[n..] == more;
      }
      assert |Rest()| == |bits| - pos;
      if n <= |Rest()| {
        FromBitsBound(Rest()[..n]);
      }
      v := Read(n);
      assert |Rest()| == |bits| - pos;
    }
  }
}
