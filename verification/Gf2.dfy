/** Polynomials over GF(2) as bit strings, highest power first, and the shift
    register that divides by one of them. Throughout, `g` holds the coefficients
    of the divisor below its leading power: the divisor itself is `[true] + g`. */
module Gf2 {

  type Bits = seq<bool>

  function Zeros(n: nat): (r: Bits)
    ensures |r| == n && forall i :: 0 <= i < n ==> !r[i]
  {
    seq(n, _ => false)
  }

  /** Addition, coefficient by coefficient. */
  function Xor(a: Bits, b: Bits): (r: Bits)
    requires |a| == |b|
    ensures |r| == |a| && forall i :: 0 <= i < |a| ==> r[i] == (a[i] != b[i])
  {
    seq(|a|, i requires 0 <= i < |a| => a[i] != b[i])
  }

  /** The product of two polynomials. */
  function Product(a: Bits, b: Bits): (r: Bits)
    requires |b| > 0
    ensures |r| == |a| + |b| - 1
  {
    if a == [] then Zeros(|b| - 1)
    else Xor(if a[0] then b + Zeros(|a| - 1) else Zeros(|a| + |b| - 1), [false] + Product(a[1..], b))
  }

  /** The polynomial `q * divisor + r`, for a remainder `r` of lower degree. */
  function Recombined(q: Bits, g: Bits, r: Bits): (m: Bits)
    requires |r| == |g|
    ensures |m| == |q| + |g|
  {
    Xor(Product(q, [true] + g), Zeros(|q|) + r)
  }

  /** `r` is the remainder of `m * x^|g|` by the divisor. */
  ghost predicate IsRemainder(m: Bits, g: Bits, r: Bits) {
    |r| == |g| && exists q: Bits :: |q| == |m| && m + Zeros(|g|) == Recombined(q, g, r)
  }

  // ---- what a product is --------------------------------------------------------

  lemma {:induction false} ProductOfZeros(n: nat, b: Bits)
    requires |b| > 0
    ensures Product(Zeros(n), b) == Zeros(n + |b| - 1)
    decreases n
  {
    if n > 0 {
      assert Zeros(n)[1..] == Zeros(n - 1);
      ProductOfZeros(n - 1, b);
    }
  }

  /** Multiplying by a power of x shifts ... */
  lemma ProductOfPower(n: nat, b: Bits)
    requires |b| > 0
    ensures Product([true] + Zeros(n), b) == b + Zeros(n)
  {
    ProductOfZeros(n, b);
    assert ([true] + Zeros(n))[1..] == Zeros(n);
  }

  /** ... and multiplying a sum adds the products: the two laws determine `Product`. */
  lemma {:induction false} ProductOfSum(a: Bits, c: Bits, b: Bits)
    requires |a| == |c| && |b| > 0
    ensures Product(Xor(a, c), b) == Xor(Product(a, b), Product(c, b))
    decreases a
  {
    if a != [] {
      assert Xor(a, c)[1..] == Xor(a[1..], c[1..]);
      ProductOfSum(a[1..], c[1..], b);
      SumOfSums(a[0], c[0], |a| - 1, b, Product(a[1..], b), Product(c[1..], b));
    }
  }

  lemma SumOfSums(x: bool, y: bool, n: nat, b: Bits, p: Bits, q: Bits)
    requires |b| > 0 && |p| == |q| == n + |b| - 1
    ensures Xor(if x != y then b + Zeros(n) else Zeros(n + |b|), [false] + Xor(p, q)) ==
            Xor(Xor(if x then b + Zeros(n) else Zeros(n + |b|), [false] + p),
                Xor(if y then b + Zeros(n) else Zeros(n + |b|), [false] + q))
  {
    var bz := b + Zeros(n);
    assert |bz| == n + |b|;
  }

  // ---- the shift register --------------------------------------------------------

  function Shift(reg: Bits): (r: Bits)
    requires |reg| > 0
    ensures |r| == |reg|
  {
    reg[1..] + [false]
  }

  /** One step: the bit shifted out, plus the incoming one, decides whether the
      divisor is added. */
  function Step(reg: Bits, b: bool, g: Bits): (r: Bits)
    requires |reg| == |g| > 0
    ensures |r| == |g|
  {
    if reg[0] != b then Xor(Shift(reg), g) else Shift(reg)
  }

  function Run(reg: Bits, m: Bits, g: Bits): (r: Bits)
    requires |reg| == |g| > 0
    ensures |r| == |g|
    decreases m, reg
  {
    if m == [] then reg else Run(Step(reg, m[0], g), m[1..], g)
  }

  /** The register after a message, starting from zero. */
  function Crc(m: Bits, g: Bits): (r: Bits)
    requires |g| > 0
    ensures |r| == |g|
  {
    Run(Zeros(|g|), m, g)
  }

  // ---- division ---------------------------------------------------------------------

  /** The bits that the register feeds back are the quotient. */
  function Quotient(reg: Bits, m: Bits, g: Bits): (q: Bits)
    requires |reg| == |g| > 0
    ensures |q| == |m|
    decreases m, reg
  {
    if m == [] then [] else [reg[0] != m[0]] + Quotient(Step(reg, m[0], g), m[1..], g)
  }

  /** The divisor under the top bit of a polynomial of `n + |g|` bits, if wanted. */
  function Top(wanted: bool, n: nat, g: Bits): (t: Bits)
    requires n > 0
    ensures |t| == n + |g| && t[0] == wanted
  {
    if wanted then [true] + g + Zeros(n - 1) else Zeros(n + |g|)
  }

  lemma Peel(q: Bits, g: Bits, r: Bits)
    requires q != [] && |r| == |g|
    ensures Recombined(q, g, r) == Xor(Top(q[0], |q|, g), [false] + Recombined(q[1..], g, r))
  {
    var p := Product(q[1..], [true] + g);
    assert Zeros(|q|) + r == [false] + (Zeros(|q| - 1) + r);
    XorShuffle(Top(q[0], |q|, g), p, Zeros(|q| - 1) + r);
  }

  lemma XorShuffle(head: Bits, a: Bits, b: Bits)
    requires |a| == |b| && |head| == |a| + 1
    ensures Xor(head, [false] + Xor(a, b)) == Xor(Xor(head, [false] + a), [false] + b)
  {
  }

  /** The register contents stand for the top of what remains to be divided. */
  lemma {:induction false} Division(reg: Bits, m: Bits, g: Bits)
    requires |reg| == |g| > 0
    ensures Xor(reg + Zeros(|m|), m + Zeros(|g|)) == Recombined(Quotient(reg, m, g), g, Run(reg, m, g))
    decreases m
  {
    if m == [] {
      assert reg + Zeros(0) == reg && m + Zeros(|g|) == Zeros(|g|) && Zeros(0) + reg == reg;
    } else {
      Division(Step(reg, m[0], g), m[1..], g);
      DivisionStep(reg, m, g);
      Peel(Quotient(reg, m, g), g, Run(reg, m, g));
      assert Quotient(reg, m, g)[1..] == Quotient(Step(reg, m[0], g), m[1..], g);
    }
  }

  lemma DivisionBit(reg: Bits, m: Bits, g: Bits, s: Bits, i: nat)
    requires |reg| == |g| > 0 && m != [] && i < |m| + |g| && s == Step(reg, m[0], g)
    ensures Xor(reg + Zeros(|m|), m + Zeros(|g|))[i] ==
            Xor(Top(reg[0] != m[0], |m|, g), [false] + Xor(s + Zeros(|m| - 1), m[1..] + Zeros(|g|)))[i]
  {
    var rest := Xor(s + Zeros(|m| - 1), m[1..] + Zeros(|g|));
    if i > 0 {
      assert ([false] + rest)[i] == rest[i - 1];
      assert (reg + Zeros(|m|))[i] == ((Shift(reg)) + Zeros(|m| - 1))[i - 1];
      assert (m + Zeros(|g|))[i] == (m[1..] + Zeros(|g|))[i - 1];
    }
  }

  /** Taking the divisor away from the top, if the top bit is set, leaves the
      dividend of the next step. */
  lemma DivisionStep(reg: Bits, m: Bits, g: Bits)
    requires |reg| == |g| > 0 && m != []
    ensures Xor(reg + Zeros(|m|), m + Zeros(|g|)) ==
            Xor(Top(reg[0] != m[0], |m|, g), [false] + Xor(Step(reg, m[0], g) + Zeros(|m| - 1), m[1..] + Zeros(|g|)))
  {
    var s := Step(reg, m[0], g);
    var top := Top(reg[0] != m[0], |m|, g);
    assert top == (if reg[0] != m[0] then [true] + g else Zeros(|g| + 1)) + Zeros(|m| - 1);
    assert s == Xor(Shift(reg), if reg[0] != m[0] then g else Zeros(|g|));
    forall i: nat | i < |m| + |g|
      ensures Xor(reg + Zeros(|m|), m + Zeros(|g|))[i] ==
              Xor(top, [false] + Xor(s + Zeros(|m| - 1), m[1..] + Zeros(|g|)))[i]
    {
      DivisionBit(reg, m, g, s, i);
    }
  }

  lemma XorCancel(t: Bits, a: Bits, b: Bits)
    requires |a| == |b| && |t| == |a| + 1
    requires Xor(t, [false] + a) == Xor(t, [false] + b)
    ensures a == b
  {
    var x, y := Xor(t, [false] + a), Xor(t, [false] + b);
    forall i: nat | i < |a|
      ensures a[i] == b[i]
    {
      assert x[i + 1] == y[i + 1];
      assert ([false] + a)[i + 1] == a[i] && ([false] + b)[i + 1] == b[i];
    }
  }

  /** A multiple of the divisor of low degree is zero, so quotient and remainder are
      determined. */
  lemma {:induction false} DivisionUnique(q: Bits, p: Bits, g: Bits, r: Bits, s: Bits)
    requires |q| == |p| && |r| == |s| == |g|
    requires Recombined(q, g, r) == Recombined(p, g, s)
    ensures q == p && r == s
    decreases q
  {
    if q == [] {
      ShortRecombined(g, r);
      ShortRecombined(g, s);
    } else {
      Peel(q, g, r);
      Peel(p, g, s);
      assert q[0] == Recombined(q, g, r)[0] == Recombined(p, g, s)[0] == p[0];
      XorCancel(Top(q[0], |q|, g), Recombined(q[1..], g, r), Recombined(p[1..], g, s));
      DivisionUnique(q[1..], p[1..], g, r, s);
    }
  }

  lemma ShortRecombined(g: Bits, r: Bits)
    requires |r| == |g|
    ensures Recombined([], g, r) == r
  {
  }

  /** The register computes the remainder, and nothing else is one. */
  lemma CrcIsRemainder(m: Bits, g: Bits, r: Bits)
    requires |g| > 0
    ensures IsRemainder(m, g, r) <==> r == Crc(m, g)
  {
    var z := Zeros(|g|);
    Division(z, m, g);
    var q := Quotient(z, m, g);
    assert Xor(z + Zeros(|m|), m + Zeros(|g|)) == m + Zeros(|g|);
    assert m + Zeros(|g|) == Recombined(q, g, Crc(m, g));
    if IsRemainder(m, g, r) {
      var p: Bits :| |p| == |m| && m + Zeros(|g|) == Recombined(p, g, r);
      DivisionUnique(q, p, g, Crc(m, g), r);
    }
  }

  // ---- linearity ---------------------------------------------------------------------

  lemma StepLinear(a: Bits, b: Bits, x: bool, y: bool, g: Bits)
    requires |a| == |b| == |g| > 0
    ensures Step(Xor(a, b), x != y, g) == Xor(Step(a, x, g), Step(b, y, g))
  {
  }

  lemma {:induction false} RunLinear(a: Bits, b: Bits, m: Bits, k: Bits, g: Bits)
    requires |a| == |b| == |g| > 0 && |m| == |k|
    ensures Run(Xor(a, b), Xor(m, k), g) == Xor(Run(a, m, g), Run(b, k, g))
    decreases m
  {
    if m != [] {
      StepLinear(a, b, m[0], k[0], g);
      assert Xor(m, k)[1..] == Xor(m[1..], k[1..]);
      RunLinear(Step(a, m[0], g), Step(b, k[0], g), m[1..], k[1..], g);
    }
  }

  lemma {:induction false} RunAppend(reg: Bits, a: Bits, b: Bits, g: Bits)
    requires |reg| == |g| > 0
    ensures Run(reg, a + b, g) == Run(Run(reg, a, g), b, g)
    decreases a
  {
    if a == [] {
      assert a + b == b;
    } else {
      assert (a + b)[1..] == a[1..] + b;
      RunAppend(Step(reg, a[0], g), a[1..], b, g);
    }
  }

  lemma CrcLinear(m: Bits, k: Bits, g: Bits)
    requires |m| == |k| && |g| > 0
    ensures Crc(Xor(m, k), g) == Xor(Crc(m, g), Crc(k, g))
  {
    var z := Zeros(|g|);
    assert Xor(z, z) == z;
    RunLinear(z, z, m, k, g);
  }

  lemma CrcAppend(front: Bits, last: Bits, reg: Bits, g: Bits)
    requires |g| > 0 && reg == Crc(front, g)
    ensures Crc(front + last, g) == Run(reg, last, g)
  {
    RunAppend(Zeros(|g|), front, last, g);
  }

  /** Feeding `b` bit by bit comes to adding it to the top of the register first. */
  lemma {:induction false} RunAddsFirst(reg: Bits, b: Bits, g: Bits)
    requires |reg| == |g| > 0 && |b| <= |g|
    ensures Run(reg, b, g) == Run(Xor(reg, b + Zeros(|g| - |b|)), Zeros(|b|), g)
    decreases b
  {
    var full := Xor(reg, b + Zeros(|g| - |b|));
    if b == [] {
      assert full == reg;
    } else {
      var rest := b[1..];
      assert Zeros(|b|)[1..] == Zeros(|rest|);
      assert Step(full, false, g) == Xor(Step(reg, b[0], g), rest + Zeros(|g| - |rest|));
      RunAddsFirst(Step(reg, b[0], g), rest, g);
    }
  }

  lemma RunAddsWhole(reg: Bits, b: Bits, g: Bits)
    requires |reg| == |g| == |b| > 0
    ensures Run(reg, b, g) == Run(Xor(reg, b), Zeros(|b|), g)
  {
    assert b + Zeros(0) == b;
    RunAddsFirst(reg, b, g);
  }

  // ---- zero input ---------------------------------------------------------------------

  /** With a divisor that has a constant term, a step without input loses nothing. */
  lemma StepZeroInjective(a: Bits, b: Bits, g: Bits)
    requires |a| == |b| == |g| > 0 && g[|g| - 1]
    requires Step(a, false, g) == Step(b, false, g)
    ensures a == b
  {
    var n := |g| - 1;
    var s, t := Step(a, false, g), Step(b, false, g);
    assert s[n] == a[0] && t[n] == b[0];
    forall i | 0 < i <= n
      ensures a[i] == b[i]
    {
      assert s[i - 1] == t[i - 1];
    }
  }

  lemma {:induction false} RunZerosInjective(a: Bits, b: Bits, n: nat, g: Bits)
    requires |a| == |b| == |g| > 0 && g[|g| - 1]
    requires Run(a, Zeros(n), g) == Run(b, Zeros(n), g)
    ensures a == b
    decreases n
  {
    if n > 0 {
      assert Zeros(n)[1..] == Zeros(n - 1);
      RunZerosInjective(Step(a, false, g), Step(b, false, g), n - 1, g);
      StepZeroInjective(a, b, g);
    }
  }

  lemma {:induction false} RunZerosFixesZero(n: nat, g: Bits)
    requires |g| > 0
    ensures Run(Zeros(|g|), Zeros(n), g) == Zeros(|g|)
    decreases n
  {
    if n > 0 {
      assert Zeros(n)[1..] == Zeros(n - 1);
      assert Step(Zeros(|g|), false, g) == Zeros(|g|);
      RunZerosFixesZero(n - 1, g);
    }
  }

  lemma RunZerosZeroIff(a: Bits, n: nat, g: Bits)
    requires |a| == |g| > 0 && g[|g| - 1]
    ensures Run(a, Zeros(n), g) == Zeros(|g|) <==> a == Zeros(|g|)
  {
    RunZerosFixesZero(n, g);
    if Run(a, Zeros(n), g) == Zeros(|g|) {
      RunZerosInjective(a, Zeros(|g|), n, g);
    }
  }

  lemma XorZeroIff(a: Bits, b: Bits)
    requires |a| == |b|
    ensures Xor(a, b) == Zeros(|a|) <==> a == b
  {
    if Xor(a, b) == Zeros(|a|) {
      forall i | 0 <= i < |a|
        ensures a[i] == b[i]
      {
        assert !Xor(a, b)[i];
      }
    }
  }

  /** The register ends at zero exactly when its last `|g|` input bits repeat what it
      held before them. */
  lemma EndsAtZeroIff(reg: Bits, b: Bits, g: Bits)
    requires |reg| == |b| == |g| > 0 && g[|g| - 1]
    ensures Run(reg, b, g) == Zeros(|g|) <==> b == reg
  {
    RunAddsWhole(reg, b, g);
    RunZerosZeroIff(Xor(reg, b), |g|, g);
    XorZeroIff(reg, b);
  }

  // ---- bursts ---------------------------------------------------------------------------

  /** `a` and `b` agree outside the positions `[at, at + width)`. */
  ghost predicate DifferWithin(a: Bits, b: Bits, at: nat, width: nat) {
    |a| == |b| && forall i :: 0 <= i < |a| && !(at <= i < at + width) ==> a[i] == b[i]
  }

  /** A burst no longer than the register leaves it zero only if it is zero. */
  lemma BurstLeavesTrace(at: nat, e: Bits, tail: nat, g: Bits)
    requires |g| > 0 && g[|g| - 1] && |e| <= |g|
    ensures Crc(Zeros(at) + e + Zeros(tail), g) == Zeros(|g|) <==> e == Zeros(|e|)
  {
    var z := Zeros(|g|);
    var padded := e + Zeros(|g| - |e|);
    RunAppend(z, Zeros(at) + e, Zeros(tail), g);
    RunAppend(z, Zeros(at), e, g);
    RunZerosFixesZero(at, g);
    RunZerosZeroIff(Run(z, e, g), tail, g);
    RunAddsFirst(z, e, g);
    assert Xor(z, padded) == padded;
    RunZerosZeroIff(padded, |e|, g);
    if padded == z { assert e == padded[..|e|] == Zeros(|e|); }
    assert e == Zeros(|e|) ==> padded == z;
  }

  /** Two messages of one length that differ only within `|g|` consecutive bits never
      share a remainder unless they are equal. */
  lemma BurstDetected(a: Bits, b: Bits, at: nat, width: nat, g: Bits)
    requires |g| > 0 && g[|g| - 1] && width <= |g| && at + width <= |a|
    requires DifferWithin(a, b, at, width)
    ensures Crc(a, g) == Crc(b, g) <==> a == b
  {
    var d := Xor(a, b);
    var e := d[at..at + width];
    assert d == Zeros(at) + e + Zeros(|d| - at - width);
    BurstLeavesTrace(at, e, |d| - at - width, g);
    CrcLinear(a, b, g);
    XorZeroIff(Crc(a, g), Crc(b, g));
    XorZeroIff(a, b);
    assert e == Zeros(width) ==> d == Zeros(|d|);
  }

  // ---- parity ---------------------------------------------------------------------------

  /** Whether an odd number of bits is set. */
  function Odd(a: Bits): bool {
    if a == [] then false else a[0] != Odd(a[1..])
  }

  lemma OddOfOne(x: bool)
    ensures Odd([x]) == x && !Odd([])
  {
    assert [x][1..] == [];
  }

  lemma {:induction false} OddAppend(a: Bits, b: Bits)
    ensures Odd(a + b) == (Odd(a) != Odd(b))
    decreases a
  {
    if a == [] {
      assert a + b == b;
    } else {
      assert (a + b)[1..] == a[1..] + b;
      OddAppend(a[1..], b);
    }
  }

  lemma {:induction false} OddXor(a: Bits, b: Bits)
    requires |a| == |b|
    ensures Odd(Xor(a, b)) == (Odd(a) != Odd(b))
    decreases a
  {
    if a != [] {
      assert Xor(a, b)[1..] == Xor(a[1..], b[1..]);
      OddXor(a[1..], b[1..]);
    }
  }

  lemma {:induction false} OddZeros(n: nat)
    ensures !Odd(Zeros(n))
    decreases n
  {
    if n > 0 {
      assert Zeros(n)[1..] == Zeros(n - 1);
      OddZeros(n - 1);
    }
  }

  /** If the divisor has an even number of terms, the register keeps the parity of
      what it has been fed. */
  lemma {:induction false} RunKeepsParity(reg: Bits, m: Bits, g: Bits)
    requires |reg| == |g| > 0 && Odd(g)
    ensures Odd(Run(reg, m, g)) == (Odd(reg) != Odd(m))
    decreases m
  {
    if m != [] {
      OddAppend(reg[1..], [false]);
      assert [false][1..] == [];
      OddXor(Shift(reg), g);
      RunKeepsParity(Step(reg, m[0], g), m[1..], g);
    }
  }
}
