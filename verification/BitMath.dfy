/** Powers of two, and the two ways this code reads a group of bits as a number:
    LSb first (the bit packer) and MSb first (the codeword tree). */
module BitMath {

  /** One past the largest value of an `ogg_uint32_t`. */
  const WORD: nat := 0x1_0000_0000

  function Pow2(n: nat): (r: nat)
    ensures r > 0
  {
    if n == 0 then 1 else 2 * Pow2(n - 1)
  }

  lemma {:induction false} Pow2Add(a: nat, b: nat)
    ensures Pow2(a + b) == Pow2(a) * Pow2(b)
  {
    if a == 0 {
    } else {
      Pow2Add(a - 1, b);
      assert 2 * (Pow2(a - 1) * Pow2(b)) == (2 * Pow2(a - 1)) * Pow2(b);
    }
  }

  lemma Pow2Facts()
    ensures Pow2(0) == 1 && Pow2(1) == 2 && Pow2(5) == 32 && Pow2(8) == 256 && Pow2(16) == 0x1_0000
    ensures Pow2(24) == 0x100_0000 && Pow2(31) == 0x8000_0000 && Pow2(32) == WORD
  {
    assert Pow2(5) == 32;
    assert Pow2(8) == 256;
    Pow2Add(8, 8);
    Pow2Add(8, 16);
    Pow2Add(16, 16);
  }

  lemma TwiceHalf(n: nat)
    requires n >= 1
    ensures Pow2(n) == 2 * Pow2(n - 1)
  {
  }

  /** The widths of fields in headers and packets. */
  lemma FieldPowers()
    ensures Pow2(1) == 2 && Pow2(2) == 4 && Pow2(3) == 8 && Pow2(4) == 16 && Pow2(5) == 32 && Pow2(6) == 64
    ensures Pow2(8) == 256
    ensures Pow2(16) == 0x1_0000 && Pow2(24) == 0x100_0000 && Pow2(32) == WORD
  {
    Pow2Facts();
    TwiceHalf(2);
    TwiceHalf(3);
    TwiceHalf(4);
    TwiceHalf(6);
  }

  /** Bits needed to write `v`. */
  function ILog(v: nat): (n: nat)
    ensures v < Pow2(n) && (v > 0 ==> n > 0 && Pow2(n - 1) <= v)
  {
    if v == 0 then 0 else 1 + ILog(v / 2)
  }

  lemma {:induction false} Pow2Monotone(a: nat, b: nat)
    requires a <= b
    ensures Pow2(a) <= Pow2(b)
  {
    if a < b {
      Pow2Monotone(a, b - 1);
    }
  }

  /** `v` written as the next `n` bits of a packet: bit 0 first, bits above `n` dropped. */
  function ToBits(v: nat, n: nat): (b: seq<bool>)
    ensures |b| == n
  {
    if n == 0 then [] else [v % 2 == 1] + ToBits(v / 2, n - 1)
  }

  /** The number whose bit `k` is `b[k]`. */
  function FromBits(b: seq<bool>): (v: nat)
  {
    if b == [] then 0 else (if b[0] then 1 else 0) + 2 * FromBits(b[1..])
  }

  /** The low `n` bits of `w`, most significant first: the path from the root to node `w` of depth `n`. */
  function MsbBits(w: nat, n: nat): (b: seq<bool>)
    ensures |b| == n
  {
    if n == 0 then [] else MsbBits(w / 2, n - 1) + [w % 2 == 1]
  }

  /** The number read most significant bit first. */
  function Msb(b: seq<bool>): nat
  {
    if b == [] then 0 else 2 * Msb(b[..|b| - 1]) + (if b[|b| - 1] then 1 else 0)
  }

  lemma {:induction false} FromBitsBound(b: seq<bool>)
    ensures FromBits(b) < Pow2(|b|)
  {
    if b != [] {
      FromBitsBound(b[1..]);
    }
  }

  lemma {:induction false} MsbBound(b: seq<bool>)
    ensures Msb(b) < Pow2(|b|)
  {
    if b != [] {
      MsbBound(b[..|b| - 1]);
    }
  }

  /** Writing then reading `n` bits gives the value back when it fits. */
  lemma {:induction false} FromToBits(v: nat, n: nat)
    requires v < Pow2(n)
    ensures FromBits(ToBits(v, n)) == v
  {
    if n != 0 {
      FromToBits(v / 2, n - 1);
      assert ToBits(v, n)[1..] == ToBits(v / 2, n - 1);
    }
  }

  lemma {:induction false} ToFromBits(b: seq<bool>)
    ensures ToBits(FromBits(b), |b|) == b
  {
    if b != [] {
      ToFromBits(b[1..]);
    }
  }

  lemma {:induction false} MsbMsbBits(w: nat, n: nat)
    requires w < Pow2(n)
    ensures Msb(MsbBits(w, n)) == w
  {
    if n != 0 {
      MsbMsbBits(w / 2, n - 1);
      assert MsbBits(w, n)[..n - 1] == MsbBits(w / 2, n - 1);
    }
  }

  lemma {:induction false} MsbBitsMsb(b: seq<bool>)
    ensures MsbBits(Msb(b), |b|) == b
  {
    if b != [] {
      MsbBitsMsb(b[..|b| - 1]);
      assert b == b[..|b| - 1] + [b[|b| - 1]];
    }
  }

  /** Reading on past `a` multiplies by the span of what follows. */
  lemma {:induction false} MsbConcat(a: seq<bool>, b: seq<bool>)
    ensures Msb(a + b) == Msb(a) * Pow2(|b|) + Msb(b)
  {
    if b == [] {
      assert a + b == a;
    } else {
      var c, last := b[..|b| - 1], b[|b| - 1];
      assert (a + b)[..|a + b| - 1] == a + c && (a + b)[|a + b| - 1] == last;
      MsbConcat(a, c);
      MulDouble(Msb(a), Pow2(|c|));
      assert Pow2(|b|) == 2 * Pow2(|c|);
      hide Pow2;
      assert Msb(a + b) == 2 * Msb(a + c) + (if last then 1 else 0);
    }
  }

  /** A prefix of a bit string is the string's value with the trailing bits shifted off. */
  lemma MsbPrefix(b: seq<bool>, n: nat)
    requires n <= |b|
    ensures Msb(b[..n]) * Pow2(|b| - n) <= Msb(b) < (Msb(b[..n]) + 1) * Pow2(|b| - n)
  {
    MsbConcat(b[..n], b[n..]);
    assert b == b[..n] + b[n..];
    MsbBound(b[n..]);
  }

  lemma {:induction false} ToBitsConcat(v: nat, u: nat, n: nat, m: nat)
    requires v < Pow2(n)
    ensures ToBits(v + u * Pow2(n), n + m) == ToBits(v, n) + ToBits(u, m)
  {
    if n == 0 {
      assert ToBits(v, n) + ToBits(u, m) == ToBits(u, m);
    } else {
      var h := u * Pow2(n - 1);
      assert v + u * Pow2(n) == v + 2 * h;
      assert (v + 2 * h) / 2 == v / 2 + h && (v + 2 * h) % 2 == v % 2;
      ToBitsConcat(v / 2, u, n - 1, m);
    }
  }

  lemma Regroup<T>(a: seq<T>, b: seq<T>, c: seq<T>)
    ensures (a + b) + c == a + (b + c)
  {
  }

  function Abs(x: int): nat
  {
    if x < 0 then -x else x
  }

  /** C division, toward zero. */
  function Quot(a: int, d: int): int
    requires d > 0
  {
    if a < 0 then -(-a / d) else a / d
  }

  lemma MulAssoc(a: int, b: int, c: int)
    ensures a * (b * c) == (a * b) * c
  {
  }

  lemma MulDouble(a: int, b: int)
    ensures 2 * (a * b) == a * (2 * b)
  {
  }

  lemma MulMonotone(a: int, b: int, c: int)
    requires a <= b && c >= 0
    ensures a * c <= b * c
  {
  }

  lemma MulStep(a: int, b: int, c: int)
    requires a < b && c >= 0
    ensures a * c + c <= b * c
  {
    MulMonotone(a + 1, b, c);
    assert (a + 1) * c == a * c + c;
  }

  lemma ScaleBetween(v: nat, p: nat, u: nat, x: nat)
    requires v * p <= x < (v + 1) * p && u > 0
    ensures v * (p * u) <= x * u < v * (p * u) + p * u
  {
    MulAssoc(v, p, u);
    MulMonotone(v * p, x, u);
    MulStep(x, (v + 1) * p, u);
    assert (v + 1) * p * u == v * p * u + p * u;
  }

  /** Division with remainder is unique. */
  lemma DivModUnique(x: int, q: int, d: int, r: int)
    requires d > 0 && x == q * d + r && 0 <= r < d
    ensures x / d == q && x % d == r
  {
    var q', r' := x / d, x % d;
    assert x == q' * d + r';
    assert (q - q') * d == r' - r;
    if q - q' >= 1 {
    } else if q - q' <= -1 {
    }
  }

  lemma DivMod(x: nat, d: nat)
    requires d > 0
    ensures x == (x / d) * d + x % d && x % d < d
  {
  }

  lemma DivMonotone(x: nat, y: nat, d: nat)
    requires d > 0 && x <= y
    ensures x / d <= y / d
  {
    DivMod(x, d);
    DivMod(y, d);
    if y / d < x / d {
      MulStep(y / d, x / d, d);
    }
  }

  lemma DivDiv(x: nat, a: nat, b: nat)
    requires a > 0 && b > 0
    ensures a * b > 0 && x / (a * b) == (x / a) / b
  {
    var q, r := x / a, x % a;
    var q', r' := q / b, q % b;
    MulMonotone(r', b - 1, a);
    assert a * b > 0;
    assert x == a * (q' * b + r') + r;
    assert a * (q' * b) == q' * (a * b);
    assert 0 <= a * r' + r < a * b;
    DivModUnique(x, q', a * b, a * r' + r);
  }

  /** Bit `n` of `w`. */
  function Bit(w: nat, n: nat): (b: nat)
    ensures b <= 1
  {
    (w / Pow2(n)) % 2
  }

  /** The low `n` bits of `w` in the opposite order. */
  function Reverse(w: nat, n: nat): (r: nat)
    ensures r < Pow2(n)
  {
    if n == 0 then 0 else 2 * Reverse(w, n - 1) + Bit(w, n - 1)
  }

  lemma {:induction false} MsbBitsHead(w: nat, n: nat)
    requires n > 0
    ensures MsbBits(w, n) == [Bit(w, n - 1) == 1] + MsbBits(w, n - 1)
  {
    if n > 1 {
      MsbBitsHead(w / 2, n - 1);
      DivDiv(w, 2, Pow2(n - 2));
    }
  }

  lemma ToBitsCons(b: nat, h: nat, n: nat)
    requires b <= 1 && n > 0
    ensures ToBits(2 * h + b, n) == [b == 1] + ToBits(h, n - 1)
  {
    assert (2 * h + b) % 2 == b && (2 * h + b) / 2 == h;
  }

  /** Packing a reversed word LSb first sends the word itself MSb first. */
  lemma {:induction false} ReverseBits(w: nat, n: nat)
    ensures ToBits(Reverse(w, n), n) == MsbBits(w, n)
  {
    if n > 0 {
      hide Bit, MsbBits;
      ReverseBits(w, n - 1);
      MsbBitsHead(w, n);
      ToBitsCons(Bit(w, n - 1), Reverse(w, n - 1), n);
    }
  }

  lemma {:induction false} ToBitsLast(v: nat, n: nat)
    requires n > 0
    ensures ToBits(v, n) == ToBits(v, n - 1) + [Bit(v, n - 1) == 1]
  {
    if n > 1 {
      ToBitsLast(v / 2, n - 1);
      DivDiv(v, 2, Pow2(n - 2));
    }
  }

  /** Reversing is reading LSb-first bits MSb first. */
  lemma {:induction false} ReverseIsMsb(v: nat, n: nat)
    ensures Reverse(v, n) == Msb(ToBits(v, n))
  {
    if n > 0 {
      ReverseIsMsb(v, n - 1);
      ToBitsLast(v, n);
      hide Bit;
      assert ToBits(v, n)[..n - 1] == ToBits(v, n - 1);
    }
  }

  lemma ReverseTwice(v: nat, n: nat)
    requires v < Pow2(n)
    ensures Reverse(Reverse(v, n), n) == v
  {
    ReverseIsMsb(Reverse(v, n), n);
    ReverseBits(v, n);
    MsbMsbBits(v, n);
  }

  lemma {:induction false} ToBitsZero(n: nat)
    ensures Msb(ToBits(0, n)) == 0
  {
    if n > 0 {
      ToBitsZero(n - 1);
      ToBitsLast(0, n);
      assert ToBits(0, n)[..n - 1] == ToBits(0, n - 1);
      DivModUnique(0, 0, Pow2(n - 1), 0);
    }
  }

  /** Reversed in a wider cell, an `n`-bit reading comes out at the top of the cell. */
  lemma ReverseWide(v: nat, n: nat, wide: nat)
    requires v < Pow2(n) && n <= wide
    ensures Reverse(v, wide) == Msb(ToBits(v, n)) * Pow2(wide - n)
  {
    ReverseIsMsb(v, wide);
    ToBitsConcat(v, 0, n, wide - n);
    assert v + 0 * Pow2(n) == v;
    MsbConcat(ToBits(v, n), ToBits(0, wide - n));
    ToBitsZero(wide - n);
    hide ToBits, Msb, Reverse, Pow2;
  }
}
