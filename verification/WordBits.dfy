/** The bits of bytes and 16-bit words, and what shifts, masks and exclusive ors do
    to them. */
module WordBits {
  import opened Gf2
  import opened ByteOrder

  /** Bit `i`, counted from the least significant. */
  function Bit(c: bv16, i: nat): bool {
    if i == 0 then c & 1 == 1 else Bit(c >> 1, i - 1)
  }

  function Wide(b: bv8): bv16 {
    b as bv16
  }

  /** A word, most significant bit first. */
  function Bits16(c: bv16): (r: Bits)
    ensures |r| == 16
  {
    seq(16, i requires 0 <= i < 16 => Bit(c, 15 - i))
  }

  /** A byte, most significant bit first. */
  function Bits8(b: bv8): (r: Bits)
    ensures |r| == 8
  {
    seq(8, i requires 0 <= i < 8 => Bit(Wide(b), 7 - i))
  }

  /** A byte, least significant bit first. */
  function Lsb8(b: bv8): (r: Bits)
    ensures |r| == 8
  {
    seq(8, i requires 0 <= i < 8 => Bit(Wide(b), i))
  }

  // ---- single bits ---------------------------------------------------------------------

  lemma HalfXor(a: bv16, b: bv16)
    ensures (a ^ b) >> 1 == (a >> 1) ^ (b >> 1)
  {
  }

  lemma LowXor(a: bv16, b: bv16)
    ensures Bit(a ^ b, 0) == (Bit(a, 0) != Bit(b, 0))
  {
  }

  lemma BitXorUp(a: bv16, b: bv16, x: bv16, i: nat)
    requires i > 0
    requires Bit(x >> 1, i - 1) == (Bit(a >> 1, i - 1) != Bit(b >> 1, i - 1))
    ensures Bit(x, i) == (Bit(a, i) != Bit(b, i))
  {
  }

  lemma {:induction false} BitXor(a: bv16, b: bv16, x: bv16, i: nat)
    requires x == a ^ b
    ensures Bit(x, i) == (Bit(a, i) != Bit(b, i))
    decreases i
  {
    if i == 0 {
      LowXor(a, b);
    } else {
      HalfXor(a, b);
      BitXor(a >> 1, b >> 1, x >> 1, i - 1);
      BitXorUp(a, b, x, i);
    }
  }

  lemma HalfAnd(a: bv16, b: bv16)
    ensures (a & b) >> 1 == (a >> 1) & (b >> 1)
  {
  }

  lemma LowAnd(a: bv16, b: bv16)
    ensures Bit(a & b, 0) == (Bit(a, 0) && Bit(b, 0))
  {
  }

  lemma BitAndUp(a: bv16, b: bv16, x: bv16, i: nat)
    requires i > 0
    requires Bit(x >> 1, i - 1) == (Bit(a >> 1, i - 1) && Bit(b >> 1, i - 1))
    ensures Bit(x, i) == (Bit(a, i) && Bit(b, i))
  {
  }

  lemma {:induction false} BitAnds(a: bv16, b: bv16, x: bv16, i: nat)
    requires x == a & b
    ensures Bit(x, i) == (Bit(a, i) && Bit(b, i))
    decreases i
  {
    if i == 0 {
      LowAnd(a, b);
    } else {
      HalfAnd(a, b);
      BitAnds(a >> 1, b >> 1, x >> 1, i - 1);
      BitAndUp(a, b, x, i);
    }
  }

  /** `m` is a word whose low `n` bits are set and no others. */
  predicate Ones(m: bv16, n: nat) {
    if n == 0 then m == 0 else m & 1 == 1 && Ones(m >> 1, n - 1)
  }

  lemma {:induction false} BitOnes(m: bv16, n: nat, i: nat)
    requires Ones(m, n)
    ensures Bit(m, i) == (i < n)
    decreases i
  {
    if i > 0 {
      if n > 0 { BitOnes(m >> 1, n - 1, i - 1); } else { BitOnes(m >> 1, 0, i - 1); }
    }
  }

  lemma OnesAre()
    ensures Ones(0xFFFF, 16) && Ones(0x7FFF, 15) && Ones(0xFF, 8) && Ones(0x7F, 7)
  {
    assert Ones(0x0, 0);
    assert Ones(0x1, 1);
    assert Ones(0x3, 2);
    assert Ones(0x7, 3);
    assert Ones(0xF, 4);
    assert Ones(0x1F, 5);
    assert Ones(0x3F, 6);
    assert Ones(0x7F, 7);
    assert Ones(0xFF, 8);
    assert Ones(0x1FF, 9);
    assert Ones(0x3FF, 10);
    assert Ones(0x7FF, 11);
    assert Ones(0xFFF, 12);
    assert Ones(0x1FFF, 13);
    assert Ones(0x3FFF, 14);
    assert Ones(0x7FFF, 15);
    assert Ones(0xFFFF, 16);
  }

  lemma BitLow(c: bv16, m: bv16, n: nat, i: nat)
    requires Ones(m, n)
    ensures Bit(c & m, i) == (i < n && Bit(c, i))
  {
    BitAnds(c, m, c & m, i);
    BitOnes(m, n, i);
  }

  lemma BitShl(c: bv16, i: nat)
    requires i < 16
    ensures Bit(c << 1, i) == (i > 0 && Bit(c, i - 1))
  {
    if i > 0 {
      assert (c << 1) >> 1 == c & 0x7FFF;
      OnesAre();
      BitLow(c, 0x7FFF, 15, i - 1);
    }
  }

  lemma BitShl8(c: bv16, i: nat)
    requires i < 16
    ensures Bit(c << 8, i) == (i >= 8 && Bit(c, i - 8))
  {
    if i < 8 {
      assert (c << 8) & 0xFF == 0;
      OnesAre();
      BitLow(c << 8, 0xFF, 8, i);
      BitOnes(0, 0, i);
    } else {
      BitShr8(c << 8, i - 8);
      assert (c << 8) >> 8 == c & 0xFF;
      OnesAre();
      BitLow(c, 0xFF, 8, i - 8);
    }
  }

  lemma BitShr8(c: bv16, i: nat)
    ensures Bit(c >> 8, i) == Bit(c, i + 8)
  {
    BitShr4(c, i + 4);
    BitShr4(c >> 4, i);
    assert (c >> 4) >> 4 == c >> 8;
  }

  lemma BitShr4(c: bv16, i: nat)
    ensures Bit(c >> 4, i) == Bit(c, i + 4)
  {
    assert ((c >> 1) >> 1) >> 1 == c >> 3 && (c >> 3) >> 1 == c >> 4 && (c >> 1) >> 1 == c >> 2;
    assert Bit(c, i + 4) == Bit(c >> 1, i + 3) == Bit(c >> 2, i + 2) == Bit(c >> 3, i + 1);
  }

  /** `p` is the word whose bit `k` is set and no other. */
  predicate Power(p: bv16, k: nat) {
    if k == 0 then p == 1 else p & 1 == 0 && Power(p >> 1, k - 1)
  }

  lemma PowersAre()
    ensures Power(0x01, 0) && Power(0x02, 1) && Power(0x04, 2) && Power(0x08, 3)
    ensures Power(0x10, 4) && Power(0x20, 5) && Power(0x40, 6) && Power(0x80, 7)
    ensures Power(0x1000, 12) && Power(0x8000, 15)
  {
    assert Power(0x1, 0);
    assert Power(0x2, 1);
    assert Power(0x4, 2);
    assert Power(0x8, 3);
    assert Power(0x10, 4);
    assert Power(0x20, 5);
    assert Power(0x40, 6);
    assert Power(0x80, 7);
    assert Power(0x100, 8);
    assert Power(0x200, 9);
    assert Power(0x400, 10);
    assert Power(0x800, 11);
    assert Power(0x1000, 12);
    assert Power(0x2000, 13);
    assert Power(0x4000, 14);
    assert Power(0x8000, 15);
  }

  lemma {:induction false} BitPower(p: bv16, k: nat, i: nat)
    requires Power(p, k)
    ensures Bit(p, i) == (i == k)
    decreases i
  {
    if i > 0 {
      if k > 0 { BitPower(p >> 1, k - 1, i - 1); } else { BitOnes(0, 0, i - 1); }
    }
  }

  lemma MaskHalf(c: bv16, p: bv16)
    requires p & 1 == 0
    ensures (c & p != 0) == ((c >> 1) & (p >> 1) != 0)
  {
  }

  lemma MaskUp(c: bv16, p: bv16, k: nat)
    requires k > 0 && Power(p, k)
    requires Bit(c >> 1, k - 1) == ((c >> 1) & (p >> 1) != 0)
    ensures Bit(c, k) == (c & p != 0)
  {
    MaskHalf(c, p);
  }

  lemma {:induction false} MaskedBit(c: bv16, p: bv16, k: nat)
    requires Power(p, k)
    ensures Bit(c, k) == (c & p != 0)
    decreases k
  {
    if k > 0 {
      MaskedBit(c >> 1, p >> 1, k - 1);
      MaskUp(c, p, k);
    }
  }

  lemma NoBit(c: bv16)
    requires c >> 1 == 0 && c & 1 != 1
    ensures c == 0
  {
  }

  /** A word without set bits is zero. */
  lemma {:induction false} NoBits(c: bv16, m: bv16, n: nat)
    requires Ones(m, n) && c & m == c
    requires forall i :: 0 <= i < n ==> !Bit(c, i)
    ensures c == 0
    decreases n
  {
    if n > 0 {
      var half := c >> 1;
      HalfAnd(c, m);
      forall i | 0 <= i < n - 1
        ensures !Bit(half, i)
      {
        assert !Bit(c, i + 1);
      }
      NoBits(half, m >> 1, n - 1);
      assert !Bit(c, 0);
      NoBit(c);
    }
  }

  // ---- words and bytes --------------------------------------------------------------------

  lemma Bits16Xor(a: bv16, b: bv16)
    ensures Bits16(a ^ b) == Xor(Bits16(a), Bits16(b))
  {
    var x, y := Bits16(a ^ b), Xor(Bits16(a), Bits16(b));
    forall i | 0 <= i < 16
      ensures x[i] == y[i]
    {
      BitXor(a, b, a ^ b, 15 - i);
    }
  }

  lemma WideXor(a: bv8, b: bv8)
    ensures Wide(a ^ b) == Wide(a) ^ Wide(b)
  {
  }

  lemma BytesXor(a: bv8, b: bv8)
    ensures Bits8(a ^ b) == Xor(Bits8(a), Bits8(b))
    ensures Lsb8(a ^ b) == Xor(Lsb8(a), Lsb8(b))
  {
    var x, y, z := Wide(a), Wide(b), Wide(a ^ b);
    WideXor(a, b);
    forall i: nat
      ensures Bit(z, i) == (Bit(x, i) != Bit(y, i))
    {
      BitXor(x, y, z, i);
    }
    BytesDiffer(a, b, a ^ b);
  }

  lemma BytesDiffer(a: bv8, b: bv8, c: bv8)
    requires forall i: nat :: Bit(Wide(c), i) == (Bit(Wide(a), i) != Bit(Wide(b), i))
    ensures Bits8(c) == Xor(Bits8(a), Bits8(b))
    ensures Lsb8(c) == Xor(Lsb8(a), Lsb8(b))
  {
  }

  lemma ZeroBits()
    ensures Bits16(0) == Zeros(16) && Bits8(0) == Zeros(8) && Lsb8(0) == Zeros(8)
  {
    forall i: nat
      ensures !Bit(0, i)
    {
      BitOnes(0, 0, i);
    }
    assert Wide(0) == 0;
  }

  lemma Bits16Injective(a: bv16, b: bv16)
    requires Bits16(a) == Bits16(b)
    ensures a == b
  {
    var d := a ^ b;
    forall i | 0 <= i < 16
      ensures !Bit(d, i)
    {
      BitXor(a, b, d, i);
      assert Bits16(a)[15 - i] == Bits16(b)[15 - i];
    }
    OnesAre();
    assert d & 0xFFFF == d;
    NoBits(d, 0xFFFF, 16);
    assert d == 0 ==> a == b;
  }

  lemma Lsb8Injective(a: bv8, b: bv8)
    requires Lsb8(a) == Lsb8(b)
    ensures a == b
  {
    var x, y := Wide(a), Wide(b);
    var d := x ^ y;
    forall i | 0 <= i < 8
      ensures !Bit(d, i)
    {
      BitXor(x, y, d, i);
      assert Lsb8(a)[i] == Lsb8(b)[i];
    }
    OnesAre();
    assert d & 0xFF == d;
    NoBits(d, 0xFF, 8);
    assert d == 0 ==> a == b;
  }

  lemma Bits8Injective(a: bv8, b: bv8)
    requires Bits8(a) == Bits8(b)
    ensures a == b
  {
    forall i | 0 <= i < 8
      ensures Lsb8(a)[i] == Lsb8(b)[i]
    {
      assert Bits8(a)[7 - i] == Bits8(b)[7 - i];
    }
    Lsb8Injective(a, b);
  }

  /** A byte moved to the top of a word. */
  lemma Bits16Byte(d: bv8)
    ensures Bits16(Wide(d) << 8) == Bits8(d) + Zeros(8)
  {
    var x, y := Bits16(Wide(d) << 8), Bits8(d) + Zeros(8);
    forall i | 0 <= i < 16
      ensures x[i] == y[i]
    {
      BitShl8(Wide(d), 15 - i);
    }
  }

  lemma BytesOf(v: bv16)
    ensures Wide(High(v)) == v >> 8 && Wide(Low(v)) == v & 0xFF
  {
  }

  /** A word is its two bytes. */
  lemma Bits16Split(v: bv16)
    ensures Bits16(v) == Bits8(High(v)) + Bits8(Low(v))
  {
    BytesOf(v);
    OnesAre();
    var x, y := Bits16(v), Bits8(High(v)) + Bits8(Low(v));
    forall i | 0 <= i < 16
      ensures x[i] == y[i]
    {
      if i < 8 { BitShr8(v, 7 - i); } else { BitLow(v, 0xFF, 8, 15 - i); }
    }
  }

  /** Big-endian: the first byte holds the high bits of the word, the second the low ones. */
  lemma BigEndianBits(a: bv8, b: bv8)
    ensures Bits16(LoadBe16(a, b)) == Bits8(a) + Bits8(b)
  {
    StoreLoad(a, b);
    Bits16Split(LoadBe16(a, b));
  }

  // ---- shifts -----------------------------------------------------------------------------------

  lemma Bits16Shift(c: bv16)
    ensures Bits16(c << 1) == Shift(Bits16(c))
    ensures Bits16(c)[0] == (c & 0x8000 != 0)
  {
    PowersAre();
    MaskedBit(c, 0x8000, 15);
    var x, y := Bits16(c << 1), Shift(Bits16(c));
    forall i | 0 <= i < 16
      ensures x[i] == y[i]
    {
      BitShl(c, 15 - i);
    }
  }

  lemma WideShifts(c: bv8)
    ensures Wide(c) & 0x80 != 0 <==> c & 0x80 != 0
    ensures Wide(c) & 1 == 1 <==> c & 0x01 != 0
    ensures Wide(c << 1) == (Wide(c) << 1) & 0xFF
    ensures Wide(c >> 1) == Wide(c) >> 1 == (Wide(c) >> 1) & 0x7F
  {
  }

  lemma ByteShl(w: bv16, v: bv16, i: nat)
    requires v == (w << 1) & 0xFF && i < 8
    ensures Bit(v, i) == (i > 0 && Bit(w, i - 1))
  {
    OnesAre();
    BitLow(w << 1, 0xFF, 8, i);
    BitShl(w, i);
  }

  lemma Bits8Shift(c: bv8)
    ensures Bits8(c << 1) == Shift(Bits8(c))
    ensures Bits8(c)[0] == (c & 0x80 != 0)
  {
    var w, v := Wide(c), Wide(c << 1);
    WideShifts(c);
    PowersAre();
    MaskedBit(w, 0x80, 7);
    var x, y := Bits8(c << 1), Shift(Bits8(c));
    forall i | 0 <= i < 8
      ensures x[i] == y[i]
    {
      ByteShl(w, v, 7 - i);
    }
  }

  lemma Lsb8Shift(c: bv8)
    ensures Lsb8(c >> 1) == Shift(Lsb8(c))
    ensures Lsb8(c)[0] == (c & 0x01 != 0)
  {
    var w := Wide(c);
    var half := w >> 1;
    WideShifts(c);
    OnesAre();
    BitLow(half, 0x7F, 7, 7);
    var x, y := Lsb8(c >> 1), Shift(Lsb8(c));
    forall i | 0 <= i < 8
      ensures x[i] == y[i]
    {
      if i < 7 { assert Bit(w, i + 1) == Bit(half, i); }
    }
  }

  // ---- bits by masks ------------------------------------------------------------------------------

  const MASKS: seq<bv8> := [0x01, 0x02, 0x04, 0x08, 0x10, 0x20, 0x40, 0x80]

  lemma WideMask(b: bv8, m: bv8)
    ensures (Wide(b) & Wide(m) != 0) == (b & m != 0)
  {
  }

  lemma MaskIsPower(k: nat)
    requires k < 8
    ensures Power(Wide(MASKS[k]), k)
  {
    PowersAre();
  }

  /** The bits of a byte, from the most and from the least significant end. */
  lemma ByteBits(b: bv8, k: nat)
    requires k < 8
    ensures Bits8(b)[7 - k] == (b & MASKS[k] != 0)
    ensures Lsb8(b)[k] == (b & MASKS[k] != 0)
  {
    var m := MASKS[k];
    MaskIsPower(k);
    MaskedBit(Wide(b), Wide(m), k);
    WideMask(b, m);
  }

  // ---- words with three bits set ----------------------------------------------------------------

  lemma BitThree(p: bv16, i: nat, a: bv16, k: nat, b: bv16, m: nat, d: bv16, c: bv16, n: nat)
    requires Power(a, k) && Power(b, m) && Power(c, n) && k != m && m != n && k != n
    requires d == a ^ b && p == d ^ c
    ensures Bit(p, i) == (i == k || i == m || i == n)
  {
    BitPower(a, k, i);
    BitPower(b, m, i);
    BitPower(c, n, i);
    BitXor(a, b, d, i);
    BitXor(d, c, p, i);
  }

  // ---- mirror images -----------------------------------------------------------------------------

  function Reverse8(b: bv8): bv8 {
    ((b & 0x01) << 7) | ((b & 0x02) << 5) | ((b & 0x04) << 3) | ((b & 0x08) << 1) |
    ((b & 0x10) >> 1) | ((b & 0x20) >> 3) | ((b & 0x40) >> 5) | ((b & 0x80) >> 7)
  }

  lemma ReverseMasks(w: bv16, r: bv16, b: bv8)
    requires w == Wide(b) && r == Wide(Reverse8(b))
    ensures (r & 0x80 != 0) == (w & 0x01 != 0) && (r & 0x01 != 0) == (w & 0x80 != 0)
    ensures (r & 0x40 != 0) == (w & 0x02 != 0) && (r & 0x02 != 0) == (w & 0x40 != 0)
    ensures (r & 0x20 != 0) == (w & 0x04 != 0) && (r & 0x04 != 0) == (w & 0x20 != 0)
    ensures (r & 0x10 != 0) == (w & 0x08 != 0) && (r & 0x08 != 0) == (w & 0x10 != 0)
  {
  }

  lemma SameBit(r: bv16, p: bv16, k: nat, w: bv16, q: bv16, m: nat)
    requires Power(p, k) && Power(q, m) && (r & p != 0) == (w & q != 0)
    ensures Bit(r, k) == Bit(w, m)
  {
    MaskedBit(r, p, k);
    MaskedBit(w, q, m);
  }

  lemma MirrorBits(w: bv16, r: bv16, b: bv8)
    requires w == Wide(b) && r == Wide(Reverse8(b))
    ensures forall i :: 0 <= i < 8 ==> Bit(r, 7 - i) == Bit(w, i)
  {
    ReverseMasks(w, r, b);
    PowersAre();
    SameBit(r, 0x80, 7, w, 0x01, 0);
    SameBit(r, 0x40, 6, w, 0x02, 1);
    SameBit(r, 0x20, 5, w, 0x04, 2);
    SameBit(r, 0x10, 4, w, 0x08, 3);
    SameBit(r, 0x08, 3, w, 0x10, 4);
    SameBit(r, 0x04, 2, w, 0x20, 5);
    SameBit(r, 0x02, 1, w, 0x40, 6);
    SameBit(r, 0x01, 0, w, 0x80, 7);
  }

  /** The mirror image read from the top is the byte read from the bottom. */
  lemma Reversed(b: bv8)
    ensures Bits8(Reverse8(b)) == Lsb8(b)
  {
    MirrorBits(Wide(b), Wide(Reverse8(b)), b);
  }

  lemma ReversedTwice(b: bv8)
    ensures Reverse8(Reverse8(b)) == b
  {
  }
}
