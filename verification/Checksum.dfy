/** `crc16_xmodem`, `crc8_maxim` and `checksum_inverted_sum`, as the loops of the
    original, and what the two CRCs are: remainders of polynomial division. */
module Checksum {
  import opened Gf2
  import opened ByteOrder
  import opened WordBits

  // ---- the bits of a message ---------------------------------------------------------

  /** The bits of a message in the order in which `crc16_xmodem` takes them ... */
  function MsbBits(data: seq<bv8>): (r: Bits)
    ensures |r| == 8 * |data|
  {
    if data == [] then [] else MsbBits(data[..|data| - 1]) + Bits8(data[|data| - 1])
  }

  /** ... and in the order in which `crc8_maxim` does. */
  function LsbBits(data: seq<bv8>): (r: Bits)
    ensures |r| == 8 * |data|
  {
    if data == [] then [] else LsbBits(data[..|data| - 1]) + Lsb8(data[|data| - 1])
  }

  /** Bit by bit, these are the bits of the bytes. */
  lemma {:induction false} MsbBitsAt(data: seq<bv8>, i: nat, j: nat)
    requires i < |data| && j < 8
    ensures MsbBits(data)[8 * i + j] == Bits8(data[i])[j]
    ensures LsbBits(data)[8 * i + j] == Lsb8(data[i])[j]
    decreases data
  {
    if i < |data| - 1 { MsbBitsAt(data[..|data| - 1], i, j); }
  }

  /** x^16 + x^12 + x^5 + 1, without its leading power. */
  const XMODEM: Bits := [false, false, false, true, false, false, false, false,
                         false, false, true, false, false, false, false, true]

  /** x^8 + x^5 + x^4 + 1, without its leading power. */
  const MAXIM: Bits := [false, false, true, true, false, false, false, true]

  // ---- crc16_xmodem --------------------------------------------------------------------

  function XmodemBit(c: bv16): bv16 {
    if c & 0x8000 != 0 then (c << 1) ^ 0x1021 else c << 1
  }

  function XmodemBits(c: bv16, n: nat): bv16 {
    if n == 0 then c else XmodemBit(XmodemBits(c, n - 1))
  }

  /** The value of `crc16_xmodem`. */
  function Xmodem(data: seq<bv8>): bv16 {
    if data == [] then 0
    else XmodemBits(Xmodem(data[..|data| - 1]) ^ (Wide(data[|data| - 1]) << 8), 8)
  }

  lemma {:induction false} XmodemBitFirst(c: bv16, d: bv16, n: nat)
    requires d == XmodemBit(c)
    ensures XmodemBits(c, n + 1) == XmodemBits(d, n)
    decreases n
  {
    if n > 0 { XmodemBitFirst(c, d, n - 1); }
  }

  lemma XmodemNext(data: seq<bv8>, i: nat, x: bv16)
    requires i < |data| && x == Xmodem(data[..i]) ^ (Wide(data[i]) << 8)
    ensures Xmodem(data[..i + 1]) == XmodemBits(x, 8)
  {
    assert data[..i + 1][..i] == data[..i];
  }

  method Crc16Xmodem(data: array<bv8>, len: nat) returns (crc: bv16)
    requires len <= data.Length
    ensures crc == Xmodem(data[..len])
    ensures IsRemainder(MsbBits(data[..len]), XMODEM, Bits16(crc))
  {
    crc := 0;
    for i := 0 to len
      invariant crc == Xmodem(data[..i])
    {
      crc := crc ^ (Wide(data[i]) << 8);
      XmodemNext(data[..], i, crc);
      assert data[..][..i] == data[..i] && data[..][..i + 1] == data[..i + 1];
      for b := 0 to 8
        invariant XmodemBits(crc, 8 - b) == Xmodem(data[..i + 1])
      {
        ghost var was := crc;
        crc := if crc & 0x8000 != 0 then (crc << 1) ^ 0x1021 else crc << 1;
        XmodemBitFirst(was, crc, 7 - b);
      }
    }
    XmodemIsRemainder(data[..len], Bits16(crc));
  }

  // ---- crc8_maxim ------------------------------------------------------------------------

  function MaximBit(c: bv8): bv8 {
    if c & 0x01 != 0 then (c >> 1) ^ 0x8C else c >> 1
  }

  function MaximBits(c: bv8, n: nat): bv8 {
    if n == 0 then c else MaximBit(MaximBits(c, n - 1))
  }

  /** The value of `crc8_maxim`. */
  function Maxim(data: seq<bv8>): bv8 {
    if data == [] then 0
    else MaximBits(Maxim(data[..|data| - 1]) ^ data[|data| - 1], 8)
  }

  method Crc8Maxim(data: array<bv8>, len: nat) returns (crc: bv8)
    requires len <= data.Length
    ensures crc == Maxim(data[..len])
    ensures IsRemainder(LsbBits(data[..len]), MAXIM, Lsb8(crc))
  {
    crc := 0;
    for i := 0 to len
      invariant crc == Maxim(data[..i])
    {
      assert data[..i + 1][..i] == data[..i];
      crc := crc ^ data[i];
      ghost var start := crc;
      for b := 0 to 8
        invariant crc == MaximBits(start, b)
      {
        crc := if crc & 0x01 != 0 then (crc >> 1) ^ 0x8C else crc >> 1;
      }
    }
    MaximIsRemainder(data[..len], Lsb8(crc));
  }

  // ---- words as registers ------------------------------------------------------------------

  lemma XmodemTerms()
    ensures Bits16(0x1021) == XMODEM
  {
    PowersAre();
    forall i: nat
      ensures Bit(0x1021, i) == (i == 12 || i == 5 || i == 0)
    {
      BitThree(0x1021, i, 0x1000, 12, 0x20, 5, 0x1020, 0x01, 0);
    }
  }

  lemma XmodemBitIsStep(c: bv16)
    ensures Bits16(XmodemBit(c)) == Step(Bits16(c), false, XMODEM)
  {
    Bits16Shift(c);
    XmodemTerms();
    Bits16Xor(c << 1, 0x1021);
  }

  lemma {:induction false} XmodemBitsIsRun(c: bv16, n: nat)
    ensures Bits16(XmodemBits(c, n)) == Run(Bits16(c), Zeros(n), XMODEM)
    decreases n
  {
    if n > 0 {
      XmodemBitsIsRun(c, n - 1);
      XmodemBitIsStep(XmodemBits(c, n - 1));
      RunZerosLast(Bits16(c), n, XMODEM);
    }
  }

  lemma RunZerosLast(reg: Bits, n: nat, g: Bits)
    requires |reg| == |g| > 0 && n > 0
    ensures Run(reg, Zeros(n), g) == Step(Run(reg, Zeros(n - 1), g), false, g)
  {
    assert Zeros(n) == Zeros(n - 1) + [false];
    RunAppend(reg, Zeros(n - 1), [false], g);
    assert [false][1..] == [];
  }

  lemma XmodemByteIsRun(c: bv16, d: bv8, x: bv16)
    requires x == c ^ (Wide(d) << 8)
    ensures Bits16(XmodemBits(x, 8)) == Run(Bits16(c), Bits8(d), XMODEM)
  {
    Bits16Xor(c, Wide(d) << 8);
    Bits16Byte(d);
    XmodemBitsIsRun(x, 8);
    RunAddsFirst(Bits16(c), Bits8(d), XMODEM);
  }

  lemma {:induction false} XmodemIsCrc(data: seq<bv8>)
    ensures Bits16(Xmodem(data)) == Crc(MsbBits(data), XMODEM)
    decreases data
  {
    if data == [] {
      ZeroBits();
    } else {
      var front, d := data[..|data| - 1], data[|data| - 1];
      var c := Xmodem(front);
      XmodemIsCrc(front);
      XmodemByteIsRun(c, d, c ^ (Wide(d) << 8));
      CrcAppend(MsbBits(front), Bits8(d), Bits16(c), XMODEM);
    }
  }

  /** `crc16_xmodem` is the remainder of the message times x^16, and nothing else is. */
  lemma XmodemIsRemainder(data: seq<bv8>, r: Bits)
    ensures IsRemainder(MsbBits(data), XMODEM, r) <==> r == Bits16(Xmodem(data))
  {
    XmodemIsCrc(data);
    CrcIsRemainder(MsbBits(data), XMODEM, r);
  }

  lemma MaximTerms()
    ensures Lsb8(0x8C) == MAXIM && Bits8(0x31) == MAXIM
  {
    PowersAre();
    var x, y := Wide(0x8C), Wide(0x31);
    forall i: nat
      ensures Bit(x, i) == (i == 7 || i == 3 || i == 2)
    {
      BitThree(x, i, 0x80, 7, 0x08, 3, 0x88, 0x04, 2);
    }
    forall i: nat
      ensures Bit(y, i) == (i == 5 || i == 4 || i == 0)
    {
      BitThree(y, i, 0x20, 5, 0x10, 4, 0x30, 0x01, 0);
    }
  }

  lemma MaximBitIsStep(c: bv8)
    ensures Lsb8(MaximBit(c)) == Step(Lsb8(c), false, MAXIM)
  {
    Lsb8Shift(c);
    MaximTerms();
    BytesXor(c >> 1, 0x8C);
  }

  lemma {:induction false} MaximBitsIsRun(c: bv8, n: nat)
    ensures Lsb8(MaximBits(c, n)) == Run(Lsb8(c), Zeros(n), MAXIM)
    decreases n
  {
    if n > 0 {
      MaximBitsIsRun(c, n - 1);
      MaximBitIsStep(MaximBits(c, n - 1));
      RunZerosLast(Lsb8(c), n, MAXIM);
    }
  }

  lemma MaximByteIsRun(c: bv8, d: bv8, x: bv8)
    requires x == c ^ d
    ensures Lsb8(MaximBits(x, 8)) == Run(Lsb8(c), Lsb8(d), MAXIM)
  {
    BytesXor(c, d);
    MaximBitsIsRun(x, 8);
    RunAddsWhole(Lsb8(c), Lsb8(d), MAXIM);
  }

  lemma {:induction false} MaximIsCrc(data: seq<bv8>)
    ensures Lsb8(Maxim(data)) == Crc(LsbBits(data), MAXIM)
    decreases data
  {
    if data == [] {
      ZeroBits();
    } else {
      var front, d := data[..|data| - 1], data[|data| - 1];
      var c := Maxim(front);
      MaximIsCrc(front);
      MaximByteIsRun(c, d, c ^ d);
      CrcAppend(LsbBits(front), Lsb8(d), Lsb8(c), MAXIM);
    }
  }

  /** `crc8_maxim` is, read least significant bit first, the remainder of the message
      read the same way times x^8, and nothing else is. */
  lemma MaximIsRemainder(data: seq<bv8>, r: Bits)
    ensures IsRemainder(LsbBits(data), MAXIM, r) <==> r == Lsb8(Maxim(data))
  {
    MaximIsCrc(data);
    CrcIsRemainder(LsbBits(data), MAXIM, r);
  }

  // ---- error detection -----------------------------------------------------------------------

  lemma {:induction false} MsbBitsInjective(a: seq<bv8>, b: seq<bv8>)
    requires |a| == |b| && MsbBits(a) == MsbBits(b)
    ensures a == b
    decreases a
  {
    if a != [] {
      var n := |a| - 1;
      var fa, fb := MsbBits(a[..n]), MsbBits(b[..n]);
      assert fa == MsbBits(a)[..8 * n] == MsbBits(b)[..8 * n] == fb;
      assert Bits8(a[n]) == MsbBits(a)[8 * n..] == MsbBits(b)[8 * n..] == Bits8(b[n]);
      Bits8Injective(a[n], b[n]);
      MsbBitsInjective(a[..n], b[..n]);
    }
  }

  lemma {:induction false} LsbBitsInjective(a: seq<bv8>, b: seq<bv8>)
    requires |a| == |b| && LsbBits(a) == LsbBits(b)
    ensures a == b
    decreases a
  {
    if a != [] {
      var n := |a| - 1;
      var fa, fb := LsbBits(a[..n]), LsbBits(b[..n]);
      assert fa == LsbBits(a)[..8 * n] == LsbBits(b)[..8 * n] == fb;
      assert Lsb8(a[n]) == LsbBits(a)[8 * n..] == LsbBits(b)[8 * n..] == Lsb8(b[n]);
      Lsb8Injective(a[n], b[n]);
      LsbBitsInjective(a[..n], b[..n]);
    }
  }

  /** Two messages of one length that differ only within 16 consecutive bits share a
      `crc16_xmodem` only if they are equal. */
  lemma XmodemDetectsBursts(a: seq<bv8>, b: seq<bv8>, at: nat, width: nat)
    requires |a| == |b| && width <= 16 && at + width <= 8 * |a|
    requires DifferWithin(MsbBits(a), MsbBits(b), at, width)
    ensures Xmodem(a) == Xmodem(b) <==> a == b
  {
    BurstDetected(MsbBits(a), MsbBits(b), at, width, XMODEM);
    XmodemIsCrc(a);
    XmodemIsCrc(b);
    if Xmodem(a) == Xmodem(b) { MsbBitsInjective(a, b); }
  }

  /** The same for `crc8_maxim` and 8 consecutive bits, least significant first. */
  lemma MaximDetectsBursts(a: seq<bv8>, b: seq<bv8>, at: nat, width: nat)
    requires |a| == |b| && width <= 8 && at + width <= 8 * |a|
    requires DifferWithin(LsbBits(a), LsbBits(b), at, width)
    ensures Maxim(a) == Maxim(b) <==> a == b
  {
    BurstDetected(LsbBits(a), LsbBits(b), at, width, MAXIM);
    MaximIsCrc(a);
    MaximIsCrc(b);
    if Maxim(a) == Maxim(b) { LsbBitsInjective(a, b); }
  }

  // ---- linearity and parity -----------------------------------------------------------------------

  function XorBytes(a: seq<bv8>, b: seq<bv8>): (r: seq<bv8>)
    requires |a| == |b|
    ensures |r| == |a| && forall i :: 0 <= i < |a| ==> r[i] == a[i] ^ b[i]
  {
    seq(|a|, i requires 0 <= i < |a| => a[i] ^ b[i])
  }

  lemma XorAppend(a: Bits, b: Bits, x: Bits, y: Bits)
    requires |a| == |b| && |x| == |y|
    ensures Xor(a + x, b + y) == Xor(a, b) + Xor(x, y)
  {
  }

  lemma {:induction false} MsbBitsXor(a: seq<bv8>, b: seq<bv8>)
    requires |a| == |b|
    ensures MsbBits(XorBytes(a, b)) == Xor(MsbBits(a), MsbBits(b))
    decreases a
  {
    if a != [] {
      var n := |a| - 1;
      assert XorBytes(a, b)[..n] == XorBytes(a[..n], b[..n]);
      MsbBitsXor(a[..n], b[..n]);
      BytesXor(a[n], b[n]);
      XorAppend(MsbBits(a[..n]), MsbBits(b[..n]), Bits8(a[n]), Bits8(b[n]));
    }
  }

  lemma {:induction false} LsbBitsXor(a: seq<bv8>, b: seq<bv8>)
    requires |a| == |b|
    ensures LsbBits(XorBytes(a, b)) == Xor(LsbBits(a), LsbBits(b))
    decreases a
  {
    if a != [] {
      var n := |a| - 1;
      assert XorBytes(a, b)[..n] == XorBytes(a[..n], b[..n]);
      LsbBitsXor(a[..n], b[..n]);
      BytesXor(a[n], b[n]);
      XorAppend(LsbBits(a[..n]), LsbBits(b[..n]), Lsb8(a[n]), Lsb8(b[n]));
    }
  }

  lemma Bits16IsXor(x: bv16, y: bv16, z: bv16)
    requires Bits16(z) == Xor(Bits16(x), Bits16(y))
    ensures z == x ^ y
  {
    Bits16Xor(x, y);
    Bits16Injective(z, x ^ y);
  }

  lemma Lsb8IsXor(x: bv8, y: bv8, z: bv8)
    requires Lsb8(z) == Xor(Lsb8(x), Lsb8(y))
    ensures z == x ^ y
  {
    BytesXor(x, y);
    Lsb8Injective(z, x ^ y);
  }

  lemma XmodemBitsLinear(a: seq<bv8>, b: seq<bv8>)
    requires |a| == |b|
    ensures Bits16(Xmodem(XorBytes(a, b))) == Xor(Bits16(Xmodem(a)), Bits16(Xmodem(b)))
  {
    MsbBitsXor(a, b);
    XmodemIsCrc(a);
    XmodemIsCrc(b);
    XmodemIsCrc(XorBytes(a, b));
    CrcLinear(MsbBits(a), MsbBits(b), XMODEM);
  }

  lemma XmodemLinear(a: seq<bv8>, b: seq<bv8>)
    requires |a| == |b|
    ensures Xmodem(XorBytes(a, b)) == Xmodem(a) ^ Xmodem(b)
  {
    XmodemBitsLinear(a, b);
    Bits16IsXor(Xmodem(a), Xmodem(b), Xmodem(XorBytes(a, b)));
  }

  lemma MaximBitsLinear(a: seq<bv8>, b: seq<bv8>)
    requires |a| == |b|
    ensures Lsb8(Maxim(XorBytes(a, b))) == Xor(Lsb8(Maxim(a)), Lsb8(Maxim(b)))
  {
    LsbBitsXor(a, b);
    MaximIsCrc(a);
    MaximIsCrc(b);
    MaximIsCrc(XorBytes(a, b));
    CrcLinear(LsbBits(a), LsbBits(b), MAXIM);
  }

  lemma MaximLinear(a: seq<bv8>, b: seq<bv8>)
    requires |a| == |b|
    ensures Maxim(XorBytes(a, b)) == Maxim(a) ^ Maxim(b)
  {
    MaximBitsLinear(a, b);
    Lsb8IsXor(Maxim(a), Maxim(b), Maxim(XorBytes(a, b)));
  }

  lemma OddTerms()
    ensures Odd(XMODEM) && Odd(MAXIM)
  {
    OddEight(false, false, false, true, false, false, false, false);
    OddEight(false, false, true, false, false, false, false, true);
    var high, low := XMODEM[..8], XMODEM[8..];
    assert high == [false, false, false, true, false, false, false, false];
    assert low == [false, false, true, false, false, false, false, true];
    OddAppend(high, low);
    assert XMODEM == high + low;
    OddEight(false, false, true, true, false, false, false, true);
  }

  lemma OddEight(a: bool, b: bool, c: bool, d: bool, e: bool, f: bool, g: bool, h: bool)
    ensures Odd([a, b, c, d, e, f, g, h]) == (((a != b) != (c != d)) != ((e != f) != (g != h)))
  {
    var high, low := [a, b, c, d], [e, f, g, h];
    assert Odd(high + low) == (((a != b) != (c != d)) != ((e != f) != (g != h))) by {
      OddFour(a, b, c, d);
      OddFour(e, f, g, h);
      OddAppend(high, low);
    }
    assert [a, b, c, d, e, f, g, h] == high + low;
  }

  lemma OddFour(a: bool, b: bool, c: bool, d: bool)
    ensures Odd([a, b, c, d]) == ((a != b) != (c != d))
  {
    assert [d][1..] == [];
    assert Odd([d]) == d;
    assert [c, d][1..] == [d];
    assert Odd([c, d]) == (c != d);
    assert [b, c, d][1..] == [c, d];
    assert Odd([b, c, d]) == (b != (c != d));
    assert [a, b, c, d][1..] == [b, c, d];
  }

  /** Either CRC has an odd number of bits set exactly when its message has. */
  lemma ParityKept(data: seq<bv8>)
    ensures Odd(Bits16(Xmodem(data))) == Odd(MsbBits(data))
    ensures Odd(Lsb8(Maxim(data))) == Odd(LsbBits(data))
  {
    OddTerms();
    XmodemIsCrc(data);
    MaximIsCrc(data);
    OddZeros(16);
    OddZeros(8);
    RunKeepsParity(Zeros(16), MsbBits(data), XMODEM);
    RunKeepsParity(Zeros(8), LsbBits(data), MAXIM);
  }

  /** Flipping any odd number of bits changes both CRCs. */
  lemma OddErrorsDetected(a: seq<bv8>, b: seq<bv8>)
    requires |a| == |b|
    ensures Odd(Xor(MsbBits(a), MsbBits(b))) ==> Xmodem(a) != Xmodem(b)
    ensures Odd(Xor(LsbBits(a), LsbBits(b))) ==> Maxim(a) != Maxim(b)
  {
    ParityKept(a);
    ParityKept(b);
    OddXor(MsbBits(a), MsbBits(b));
    OddXor(LsbBits(a), LsbBits(b));
  }

  // ---- frames ------------------------------------------------------------------------------------

  lemma ZeroWord(c: bv16)
    ensures Bits16(c) == Zeros(16) <==> c == 0
  {
    ZeroBits();
    if Bits16(c) == Zeros(16) { Bits16Injective(c, 0); }
  }

  lemma XmodemFrameBits(data: seq<bv8>, a: bv8, b: bv8)
    ensures Bits16(Xmodem(data + [a, b])) == Zeros(16) <==> Bits8(a) + Bits8(b) == Bits16(Xmodem(data))
  {
    var frame := data + [a, b];
    assert frame[..|frame| - 1] == data + [a];
    assert (data + [a])[..|data|] == data;
    assert MsbBits(frame) == MsbBits(data) + (Bits8(a) + Bits8(b));
    XmodemIsCrc(data);
    XmodemIsCrc(frame);
    CrcAppend(MsbBits(data), Bits8(a) + Bits8(b), Bits16(Xmodem(data)), XMODEM);
    EndsAtZeroIff(Bits16(Xmodem(data)), Bits8(a) + Bits8(b), XMODEM);
  }

  /** A frame of data and two check bytes has a zero `crc16_xmodem` exactly when the
      check bytes are the big-endian store of the CRC of the data. */
  lemma XmodemFrame(data: seq<bv8>, a: bv8, b: bv8)
    ensures Xmodem(data + [a, b]) == 0 <==> a == High(Xmodem(data)) && b == Low(Xmodem(data))
    ensures Xmodem(data + [a, b]) == 0 <==> LoadBe16(a, b) == Xmodem(data)
  {
    var c := Xmodem(data);
    XmodemFrameBits(data, a, b);
    ZeroWord(Xmodem(data + [a, b]));
    CheckBytes(a, b, c);
  }

  lemma CheckBytes(a: bv8, b: bv8, c: bv16)
    ensures Bits8(a) + Bits8(b) == Bits16(c) <==> a == High(c) && b == Low(c)
    ensures LoadBe16(a, b) == c <==> a == High(c) && b == Low(c)
  {
    Bits16Split(c);
    SameBytes(a, b, High(c), Low(c));
    LoadStore(c);
    StoreLoad(a, b);
  }

  lemma SameBytes(a: bv8, b: bv8, c: bv8, d: bv8)
    ensures Bits8(a) + Bits8(b) == Bits8(c) + Bits8(d) <==> a == c && b == d
  {
    if Bits8(a) + Bits8(b) == Bits8(c) + Bits8(d) {
      assert Bits8(a) == (Bits8(a) + Bits8(b))[..8] == (Bits8(c) + Bits8(d))[..8] == Bits8(c);
      assert Bits8(b) == (Bits8(a) + Bits8(b))[8..] == (Bits8(c) + Bits8(d))[8..] == Bits8(d);
      Bits8Injective(a, c);
      Bits8Injective(b, d);
    }
  }

  /** The same for `crc8_maxim` and its one check byte. */
  lemma MaximFrame(data: seq<bv8>, a: bv8)
    ensures Maxim(data + [a]) == 0 <==> a == Maxim(data)
  {
    var frame := data + [a];
    assert frame[..|frame| - 1] == data;
    MaximIsCrc(data);
    MaximIsCrc(frame);
    RunAppend(Zeros(8), LsbBits(data), Lsb8(a), MAXIM);
    EndsAtZeroIff(Lsb8(Maxim(data)), Lsb8(a), MAXIM);
    ZeroBits();
    if Lsb8(Maxim(frame)) == Lsb8(0) { Lsb8Injective(Maxim(frame), 0); }
    if Lsb8(a) == Lsb8(Maxim(data)) { Lsb8Injective(a, Maxim(data)); }
  }

  // ---- reflection -----------------------------------------------------------------------------------

  function ReverseEach(data: seq<bv8>): (r: seq<bv8>)
    ensures |r| == |data|
  {
    seq(|data|, i requires 0 <= i < |data| => Reverse8(data[i]))
  }

  /** A CRC-8 that takes bits most significant first, with polynomial 0x31. */
  function Crc8Bit(c: bv8): bv8 {
    if c & 0x80 != 0 then (c << 1) ^ 0x31 else c << 1
  }

  function Crc8Bits(c: bv8, n: nat): bv8 {
    if n == 0 then c else Crc8Bit(Crc8Bits(c, n - 1))
  }

  function Crc8(data: seq<bv8>): bv8 {
    if data == [] then 0 else Crc8Bits(Crc8(data[..|data| - 1]) ^ data[|data| - 1], 8)
  }

  lemma Crc8BitIsStep(c: bv8)
    ensures Bits8(Crc8Bit(c)) == Step(Bits8(c), false, MAXIM)
  {
    Bits8Shift(c);
    MaximTerms();
    BytesXor(c << 1, 0x31);
  }

  lemma {:induction false} Crc8BitsIsRun(c: bv8, n: nat)
    ensures Bits8(Crc8Bits(c, n)) == Run(Bits8(c), Zeros(n), MAXIM)
    decreases n
  {
    if n > 0 {
      Crc8BitsIsRun(c, n - 1);
      Crc8BitIsStep(Crc8Bits(c, n - 1));
      RunZerosLast(Bits8(c), n, MAXIM);
    }
  }

  lemma Crc8ByteIsRun(c: bv8, d: bv8, x: bv8)
    requires x == c ^ d
    ensures Bits8(Crc8Bits(x, 8)) == Run(Bits8(c), Bits8(d), MAXIM)
  {
    BytesXor(c, d);
    Crc8BitsIsRun(x, 8);
    RunAddsWhole(Bits8(c), Bits8(d), MAXIM);
  }

  lemma {:induction false} Crc8IsCrc(data: seq<bv8>)
    ensures Bits8(Crc8(data)) == Crc(MsbBits(data), MAXIM)
    decreases data
  {
    if data == [] {
      ZeroBits();
    } else {
      var front, d := data[..|data| - 1], data[|data| - 1];
      var c := Crc8(front);
      Crc8IsCrc(front);
      Crc8ByteIsRun(c, d, c ^ d);
      CrcAppend(MsbBits(front), Bits8(d), Bits8(c), MAXIM);
    }
  }

  lemma {:induction false} ReversedBits(data: seq<bv8>)
    ensures MsbBits(ReverseEach(data)) == LsbBits(data)
    decreases data
  {
    if data != [] {
      var n := |data| - 1;
      assert ReverseEach(data)[..n] == ReverseEach(data[..n]);
      ReversedBits(data[..n]);
      Reversed(data[n]);
    }
  }

  /** `crc8_maxim` is the mirror image of the CRC-8 with polynomial 0x31 that takes
      the mirror images of the bytes. */
  lemma MaximIsReflected(data: seq<bv8>)
    ensures Maxim(data) == Reverse8(Crc8(ReverseEach(data)))
  {
    var c := Crc8(ReverseEach(data));
    MaximIsCrc(data);
    Crc8IsCrc(ReverseEach(data));
    ReversedBits(data);
    Reversed(Maxim(data));
    ReversedTwice(Maxim(data));
    Bits8Injective(Reverse8(Maxim(data)), c);
  }

  // ---- check values -------------------------------------------------------------------------------------

  /** "123456789" */
  const DIGITS: seq<bv8> := [0x31, 0x32, 0x33, 0x34, 0x35, 0x36, 0x37, 0x38, 0x39]

  lemma XmodemByte(front: seq<bv8>, d: bv8, c: bv16, x: bv16, r: bv16)
    requires Xmodem(front) == c && x == c ^ (Wide(d) << 8) && XmodemBits(x, 8) == r
    ensures Xmodem(front + [d]) == r
  {
    assert (front + [d])[..|front|] == front;
  }

  lemma MaximByte(front: seq<bv8>, d: bv8, c: bv8, x: bv8, r: bv8)
    requires Maxim(front) == c && x == c ^ d && MaximBits(x, 8) == r
    ensures Maxim(front + [d]) == r
  {
    assert (front + [d])[..|front|] == front;
  }

  lemma Prefix(k: nat)
    requires k < 9
    ensures DIGITS[..k] + [DIGITS[k]] == DIGITS[..k + 1]
  {
  }

  lemma XmodemDigits3()
    ensures Xmodem(DIGITS[..3]) == 0x9752
  {
    Prefix(0);
    XmodemByte(DIGITS[..0], 0x31, 0x0000, 0x3100, 0x2672);
    Prefix(1);
    XmodemByte(DIGITS[..1], 0x32, 0x2672, 0x1472, 0x20B5);
    Prefix(2);
    XmodemByte(DIGITS[..2], 0x33, 0x20B5, 0x13B5, 0x9752);
  }

  lemma XmodemDigits6()
    ensures Xmodem(DIGITS[..6]) == 0x20E4
  {
    XmodemDigits3();
    Prefix(3);
    XmodemByte(DIGITS[..3], 0x34, 0x9752, 0xA352, 0xD789);
    Prefix(4);
    XmodemByte(DIGITS[..4], 0x35, 0xD789, 0xE289, 0x546C);
    Prefix(5);
    XmodemByte(DIGITS[..5], 0x36, 0x546C, 0x626C, 0x20E4);
  }

  /** The check values that the catalogue of CRC algorithms gives for the two. */
  lemma XmodemCheckValue()
    ensures Xmodem(DIGITS) == 0x31C3
  {
    XmodemDigits6();
    Prefix(6);
    XmodemByte(DIGITS[..6], 0x37, 0x20E4, 0x17E4, 0x86D6);
    Prefix(7);
    XmodemByte(DIGITS[..7], 0x38, 0x86D6, 0xBED6, 0x9015);
    Prefix(8);
    XmodemByte(DIGITS[..8], 0x39, 0x9015, 0xA915, 0x31C3);
    assert DIGITS[..9] == DIGITS;
  }

  lemma MaximDigits3()
    ensures Maxim(DIGITS[..3]) == 0x95
  {
    Prefix(0);
    MaximByte(DIGITS[..0], 0x31, 0x00, 0x31, 0xE0);
    Prefix(1);
    MaximByte(DIGITS[..1], 0x32, 0xE0, 0xD2, 0xEB);
    Prefix(2);
    MaximByte(DIGITS[..2], 0x33, 0xEB, 0xD8, 0x95);
  }

  lemma MaximDigits6()
    ensures Maxim(DIGITS[..6]) == 0xEC
  {
    MaximDigits3();
    Prefix(3);
    MaximByte(DIGITS[..3], 0x34, 0x95, 0xA1, 0xF1);
    Prefix(4);
    MaximByte(DIGITS[..4], 0x35, 0xF1, 0xC4, 0xAB);
    Prefix(5);
    MaximByte(DIGITS[..5], 0x36, 0xAB, 0x9D, 0xEC);
  }

  lemma MaximCheckValue()
    ensures Maxim(DIGITS) == 0xA1
  {
    MaximDigits6();
    Prefix(6);
    MaximByte(DIGITS[..6], 0x37, 0xEC, 0xDB, 0x77);
    Prefix(7);
    MaximByte(DIGITS[..7], 0x38, 0x77, 0x4F, 0x07);
    Prefix(8);
    MaximByte(DIGITS[..8], 0x39, 0x07, 0x3E, 0xA1);
    assert DIGITS[..9] == DIGITS;
  }

  // ---- the bounds on bursts are exact -----------------------------------------------------------------

  lemma LowestBit(i: nat)
    requires i < 8
    ensures Bits8(0x01)[i] == (i == 7) && Lsb8(0x01)[i] == (i == 0)
    ensures !Bits8(0)[i] && !Lsb8(0)[i]
  {
    PowersAre();
    ZeroBits();
    assert Wide(0x01) == 1;
    BitPower(1, 0, i);
    BitPower(1, 0, 7 - i);
  }

  /** 17 bits in the shape of the divisor go unnoticed. */
  lemma LongBurstMissedByXmodem(a: seq<bv8>, b: seq<bv8>)
    requires a == [0x01, 0x10, 0x21] && b == [0, 0, 0]
    ensures DifferWithin(MsbBits(a), MsbBits(b), 7, 17) && Xmodem(a) == Xmodem(b)
  {
    XmodemByte([], 0x01, 0, 0x0100, 0x1021);
    XmodemByte([0x01], 0x10, 0x1021, 0x0021, 0x2100);
    XmodemByte([0x01, 0x10], 0x21, 0x2100, 0, 0);
    XmodemByte([], 0, 0, 0, 0);
    XmodemByte([0], 0, 0, 0, 0);
    XmodemByte([0, 0], 0, 0, 0, 0);
    assert [0x01, 0x10] + [0x21] == a && [0x01] + [0x10] == a[..2] && [] + [0x01] == a[..2][..1];
    assert [0, 0] + [0] == b && [0] + [0] == b[..2] && [] + [0] == b[..2][..1];
    assert MsbBits(a[..2][..1]) == Bits8(0x01) && MsbBits(b[..2][..1]) == Bits8(0);
    forall i | 0 <= i < 7
      ensures MsbBits(a)[i] == MsbBits(b)[i]
    {
      LowestBit(i);
    }
  }

  /** So do 9 bits for `crc8_maxim`. */
  lemma LongBurstMissedByMaxim(a: seq<bv8>, b: seq<bv8>)
    requires a == [0x19, 0x01] && b == [0, 0]
    ensures DifferWithin(LsbBits(a), LsbBits(b), 0, 9) && Maxim(a) == Maxim(b)
  {
    MaximByte([], 0x19, 0, 0x19, 0x01);
    MaximByte([0x19], 0x01, 0x01, 0, 0);
    MaximByte([], 0, 0, 0, 0);
    MaximByte([0], 0, 0, 0, 0);
    assert [0x19] + [0x01] == a && [] + [0x19] == a[..1];
    assert [0] + [0] == b && [] + [0] == b[..1];
    forall i | 9 <= i < 16
      ensures LsbBits(a)[i] == LsbBits(b)[i]
    {
      LowestBit(i - 8);
    }
  }

  // ---- the additive checksum ---------------------------------------------------------------------------

  function Value(b: bv8): (r: nat)
    ensures r < 256
  {
    b as nat
  }

  /** The byte values added up as naturals. */
  function Total(data: seq<bv8>): nat {
    if data == [] then 0 else Total(data[..|data| - 1]) + Value(data[|data| - 1])
  }

  lemma TotalOfOne(x: bv8)
    ensures Total([x]) == x as nat && Total([]) == 0
  {
    assert [x][..0] == [];
  }

  lemma {:induction false} TotalAppend(a: seq<bv8>, b: seq<bv8>)
    ensures Total(a + b) == Total(a) + Total(b)
    decreases b
  {
    if b == [] {
      assert a + b == a;
    } else {
      assert (a + b)[..|a + b| - 1] == a + b[..|b| - 1];
      TotalAppend(a, b[..|b| - 1]);
    }
  }

  /** The sum that the loop forms, one byte wide. */
  function Sum(data: seq<bv8>): bv8 {
    if data == [] then 0 else Sum(data[..|data| - 1]) + data[|data| - 1]
  }

  lemma Succ(x: bv8, y: bv8)
    requires y == x + 1
    ensures Value(y) == if Value(x) == 255 then 0 else Value(x) + 1
  {
  }

  lemma ZeroByte(b: bv8)
    ensures Value(b) == 0 <==> b == 0
  {
  }

  lemma Carry(a: nat, c: nat, b: nat, x: nat, y: nat)
    requires a < 256 && c < 255 && b == c + 1 && x == (a + c) % 256 && y == if x == 255 then 0 else x + 1
    ensures y == (a + b) % 256
  {
  }

  lemma OneLess(a: bv8, b: bv8, c: bv8, x: bv8, y: bv8)
    requires y == a + b && c == b - 1 && x == a + c
    ensures b == c + 1 && y == x + 1
  {
  }

  /** Adding bytes is adding their values modulo 256. */
  lemma {:induction false} AddBytes(a: bv8, b: bv8, y: bv8)
    requires y == a + b
    ensures Value(y) == (Value(a) + Value(b)) % 256
    decreases Value(b)
  {
    hide Value;
    ZeroByte(b);
    if Value(b) == 0 {
      assert y == a;
    } else {
      var c := b - 1;
      var x := a + c;
      OneLess(a, b, c, x, y);
      Succ(c, b);
      AddBytes(a, c, x);
      Succ(x, y);
      Carry(Value(a), Value(c), Value(b), Value(x), Value(y));
    }
  }

  lemma {:induction false} SumIsTotal(data: seq<bv8>)
    ensures Value(Sum(data)) == Total(data) % 256
    decreases data
  {
    hide Value;
    if data == [] {
      ZeroByte(0);
    } else {
      var front, last := data[..|data| - 1], data[|data| - 1];
      SumIsTotal(front);
      AddBytes(Sum(front), last, Sum(data));
      ReduceLate(Total(front), Value(last));
    }
  }

  lemma ReduceLate(t: nat, n: nat)
    ensures (t % 256 + n) % 256 == (t + n) % 256
  {
  }

  lemma SumOfNone()
    ensures Sum([]) == 0
  {
  }

  lemma SumNext(data: seq<bv8>, i: nat)
    requires i < |data|
    ensures Sum(data[..i + 1]) == Sum(data[..i]) + data[i]
  {
    assert data[..i + 1][..i] == data[..i];
  }

  /** Reading the data as numbers, the sum of the data and the check byte is 255 modulo
      256, and only that byte makes it so. */
  method ChecksumInvertedSum(data: array<bv8>, len: nat) returns (check: bv8)
    requires len <= data.Length
    ensures (Total(data[..len]) + Value(check)) % 256 == 255
    ensures forall c: bv8 :: Sum(data[..len] + [c]) == 0xFF <==> c == check
  {
    var sum: bv8 := 0;
    SumOfNone();
    hide Sum, Total, Value;
    for i := 0 to len
      invariant sum == Sum(data[..i])
    {
      SumNext(data[..], i);
      assert data[..][..i] == data[..i] && data[..][..i + 1] == data[..i + 1];
      sum := sum + data[i];
    }
    check := !sum;
    OnlyComplement(data[..len], check);
    SumIsTotal(data[..len]);
    Inverted(sum, check, Total(data[..len]));
  }

  lemma OnlyComplement(data: seq<bv8>, check: bv8)
    requires check == !Sum(data)
    ensures forall c: bv8 :: Sum(data + [c]) == 0xFF <==> c == check
  {
    forall c: bv8
      ensures Sum(data + [c]) == 0xFF <==> c == check
    {
      assert (data + [c])[..|data|] == data;
      Complement(Sum(data), c);
    }
  }

  lemma Complement(s: bv8, c: bv8)
    ensures s + c == 0xFF <==> c == !s
  {
  }

  lemma InvertedValue(s: bv8, c: bv8)
    requires c == !s
    ensures Value(c) == 255 - Value(s)
  {
  }

  lemma Inverted(s: bv8, c: bv8, total: nat)
    requires c == !s && Value(s) == total % 256
    ensures (total + Value(c)) % 256 == 255
  {
    hide Value;
    InvertedValue(s, c);
    AddsTo255(total, Value(c));
  }

  lemma AddsTo255(total: nat, n: nat)
    requires n == 255 - total % 256
    ensures (total + n) % 256 == 255
  {
  }
}
