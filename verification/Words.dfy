/** Machine words: 64-bit wrap-around, `&` on naturals, ring slots, and the
    capacity rounding that both real-time loggers share. */
module Words {

  const TWO63: nat := 0x8000_0000_0000_0000
  const TWO64: nat := 0x1_0000_0000_0000_0000

  /** The values of a `uint64_t`. */
  type Word = x: nat | x < TWO64

  function Min(a: nat, b: nat): (m: nat)
    ensures m <= a && m <= b && (m == a || m == b)
  {
    if a < b then a else b
  }

  /** The value a `uint64_t` holds after an unsigned computation yields `x`. */
  function Wrap64(x: nat): Word {
    if x < TWO64 then x else x % TWO64
  }

  /** `a - b` on `uint64_t` operands. */
  function Minus64(a: Word, b: Word): Word {
    if b <= a then a - b else a + TWO64 - b
  }

  /** `static_cast<std::int64_t>` of a `uint64_t`. */
  function AsInt64(x: nat): int {
    if x < TWO63 then x else x - TWO64
  }

  function Pow2(k: nat): (r: nat)
    ensures r >= 1
  {
    if k == 0 then 1 else 2 * Pow2(k - 1)
  }

  /** Bitwise `&`, bit by bit from the least significant end. */
  function BitAnd(a: nat, b: nat): nat {
    if a == 0 || b == 0 then 0
    else (if a % 2 == 1 && b % 2 == 1 then 1 else 0) + 2 * BitAnd(a / 2, b / 2)
  }

  /** The ring slot of a free-running position: the remainder of `pos` by `cap`. */
  function Slot(cap: nat, pos: nat): (r: nat)
    requires cap > 0
    ensures r < cap
  {
    Remainder(cap, pos)
  }

  function Remainder(cap: nat, pos: nat): (r: nat)
    requires cap > 0
    ensures r < cap
    decreases pos
  {
    if pos < cap then pos else Remainder(cap, pos - cap)
  }

  /** `pos & mask_`, for the mask of a ring of `cap` slots. */
  function Masked(cap: nat, pos: nat): (r: nat)
    requires cap > 0
    ensures r < cap
  {
    BitAndBound(pos, cap - 1);
    BitAnd(pos, cap - 1)
  }

  lemma {:induction false} BitAndBound(a: nat, b: nat)
    ensures BitAnd(a, b) <= b
    decreases a
  {
    if a != 0 && b != 0 { BitAndBound(a / 2, b / 2); }
  }

  /** The signed value of a word is the one in range that agrees with it modulo `2^64`. */
  lemma SignedValue(x: Word, n: int)
    ensures AsInt64(x) == n <==> 0 <= n + TWO63 < TWO64 && (n - x) % TWO64 == 0
  {
  }

  // ---- slots -------------------------------------------------------------

  lemma {:induction false} SlotIsMod(cap: nat, pos: nat)
    requires cap > 0
    ensures Slot(cap, pos) == pos % cap
    decreases pos
  {
    if pos < cap {
      SmallMod(pos, cap);
    } else {
      SlotIsMod(cap, pos - cap);
      ModPeriod(pos - cap, cap);
    }
  }

  lemma SmallMod(x: nat, m: nat)
    requires x < m
    ensures x % m == x
  {}

  lemma ModPeriod(x: nat, m: nat)
    requires m > 0
    ensures (x + m) % m == x % m
  {
    DivMod(x, m);
    QuotientUnique(x + m, m, x / m + 1, x % m);
  }

  lemma MulAtLeast(d: nat, m: nat)
    requires d >= 1
    ensures d * m >= m
  {}

  lemma Distribute(a: int, b: int, m: int)
    ensures (a - b) * m == a * m - b * m
  {}

  lemma QuotientUnique(x: nat, m: nat, q: nat, r: nat)
    requires m > 0 && r < m && x == q * m + r
    ensures x / m == q && x % m == r
  {
    var q', r' := x / m, x % m;
    DivMod(x, m);
    if q' > q {
      MulAtLeast(q' - q, m);
      Distribute(q', q, m);
    } else if q' < q {
      MulAtLeast(q - q', m);
      Distribute(q, q', m);
    }
  }

  lemma DivMod(x: nat, m: nat)
    requires m > 0
    ensures x == (x / m) * m + x % m && x % m < m
  {}

  /** Two different positions less than one lap apart never share a slot. */
  lemma {:induction false} SlotInjective(cap: nat, p: nat, q: nat)
    requires cap > 0 && p < q < p + cap
    ensures Slot(cap, p) != Slot(cap, q)
    decreases q
  {
    if cap <= p {
      SlotInjective(cap, p - cap, q - cap);
    } else if cap <= q {
      assert Slot(cap, q - cap) == q - cap;
    }
  }

  /** Within the window `[lo, lo + cap)` only `q` itself uses the slot of `q`. */
  lemma WindowDistinct(cap: nat, lo: nat, q: nat)
    requires cap > 0 && lo <= q < lo + cap
    ensures forall x: nat {:trigger Slot(cap, x)} ::
              lo <= x < lo + cap && x != q ==> Slot(cap, x) != Slot(cap, q)
  {
    forall x: nat | lo <= x < lo + cap && x != q
      ensures Slot(cap, x) != Slot(cap, q)
    {
      if x < q { SlotInjective(cap, x, q); } else { SlotInjective(cap, q, x); }
    }
  }

  /** Every window of one lap meets every slot. */
  lemma {:induction false} WindowCovers(cap: nat, lo: nat, pos: nat) returns (q: nat)
    requires cap > 0
    ensures lo <= q < lo + cap && Slot(cap, q) == Slot(cap, pos)
    ensures lo <= pos < lo + cap ==> q == pos
    ensures pos >= lo + cap ==> q + cap <= pos
    ensures pos < lo ==> pos + cap <= q
    decreases if pos < lo then lo - pos else pos - lo
  {
    if pos < lo {
      if pos + cap < lo + cap && lo <= pos + cap {
        q := pos + cap;
      } else {
        q := WindowCovers(cap, lo, pos + cap);
      }
    } else if pos >= lo + cap {
      q := WindowCovers(cap, lo, pos - cap);
    } else {
      q := pos;
    }
  }

  /** Wrapping a position at a multiple of the capacity keeps its slot. */
  lemma {:induction false} SlotOfWrapped(cap: nat, laps: nat, m: nat, pos: nat)
    requires cap > 0 && m > 0 && m == laps * cap
    ensures Slot(cap, pos % m) == Slot(cap, pos)
    decreases pos
  {
    if pos < m {
      SmallMod(pos, m);
    } else {
      SlotOfWrapped(cap, laps, m, pos - m);
      ModPeriod(pos - m, m);
      SlotLaps(cap, pos - m, laps);
    }
  }

  lemma {:induction false} SlotLaps(cap: nat, pos: nat, laps: nat)
    requires cap > 0
    ensures Slot(cap, pos + laps * cap) == Slot(cap, pos)
    decreases laps
  {
    if laps > 0 {
      SlotLaps(cap, pos, laps - 1);
      assert pos + laps * cap == (pos + (laps - 1) * cap) + cap;
    }
  }

  // ---- powers of two and masks -------------------------------------------

  lemma {:induction false} Pow2Add(a: nat, b: nat)
    ensures Pow2(a + b) == Pow2(a) * Pow2(b)
    decreases a
  {
    if a > 0 {
      Pow2Add(a - 1, b);
      assert a + b - 1 == (a - 1) + b;
    }
  }

  lemma {:induction false} Pow2Monotone(a: nat, b: nat)
    requires a < b
    ensures Pow2(a) < Pow2(b)
    decreases b
  {
    if a < b - 1 { Pow2Monotone(a, b - 1); }
  }

  lemma Pow2Word()
    ensures Pow2(63) == TWO63 && Pow2(64) == TWO64
  {
    assert Pow2(8) == 0x100;
    Pow2Add(8, 8);
    Pow2Add(16, 16);
    Pow2Add(32, 32);
    assert Pow2(64) == 2 * Pow2(63);
  }

  /** Masking with `2^k - 1` selects the slot: `pos & mask_` is the remainder. */
  lemma {:induction false} MaskIsSlot(k: nat, pos: nat)
    ensures BitAnd(pos, Pow2(k) - 1) == Slot(Pow2(k), pos)
  {
    MaskIsMod(k, pos);
    SlotIsMod(Pow2(k), pos);
  }

  lemma ModByTwice(a: nat, h: nat)
    requires h > 0
    ensures a % (2 * h) == 2 * ((a / 2) % h) + a % 2
  {
    DivMod(a / 2, h);
    var q, r := (a / 2) / h, (a / 2) % h;
    assert q * (2 * h) == 2 * (q * h);
    QuotientUnique(a, 2 * h, q, 2 * r + a % 2);
  }

  lemma {:induction false} MaskIsMod(k: nat, a: nat)
    ensures BitAnd(a, Pow2(k) - 1) == a % Pow2(k)
    decreases k
  {
    if k > 0 {
      var h := Pow2(k - 1);
      ModByTwice(a, h);
      MaskIsMod(k - 1, a / 2);
      if a > 0 { BitAndOdd(a, h - 1); }
    }
  }

  lemma BitAndOdd(a: nat, b: nat)
    requires a > 0
    ensures BitAnd(a, 2 * b + 1) == a % 2 + 2 * BitAnd(a / 2, b)
  {
    assert (2 * b + 1) % 2 == 1 && (2 * b + 1) / 2 == b;
  }

  /** Free-running 64-bit indices may wrap: masking still selects the same slot. */
  lemma MaskOfWrapped(k: nat, pos: nat)
    requires k <= 63
    ensures Masked(Pow2(k), pos % TWO64) == Slot(Pow2(k), pos)
  {
    Pow2Word();
    Pow2Add(64 - k, k);
    SlotOfWrapped(Pow2(k), Pow2(64 - k), TWO64, pos);
    MaskIsSlot(k, pos % TWO64);
  }

  /** The difference of two wrapped indices is their distance. */
  lemma WrappedDistance(lo: nat, hi: nat)
    requires lo <= hi < lo + TWO64
    ensures Minus64(hi % TWO64, lo % TWO64) == hi - lo
  {
    var a, b := lo / TWO64, hi / TWO64;
    assert lo == a * TWO64 + lo % TWO64 && hi == b * TWO64 + hi % TWO64;
    assert b == a || b == a + 1;
  }

  /** Wrapping early or late comes to the same. */
  lemma WrapLate(x: nat, y: nat)
    ensures Wrap64(x % TWO64 + y) == (x + y) % TWO64
  {
    DivMod(x, TWO64);
    DivMod(x % TWO64 + y, TWO64);
    var q := (x % TWO64 + y) / TWO64;
    QuotientUnique(x + y, TWO64, x / TWO64 + q, (x % TWO64 + y) % TWO64);
  }

  lemma WrapStep(x: nat)
    ensures Wrap64(x % TWO64 + 1) == (x + 1) % TWO64
  {
  }

  // ---- capacity rounding -------------------------------------------------

  /** The value of the `std::size_t` counter after `n` doublings of 1. */
  function Doubled(n: nat): nat {
    Wrap64(Pow2(n))
  }

  /** The rounding loop stops exactly for requests up to `2^63`: past that the
      counter shifts out to 0 and stays there. */
  lemma RoundingTerminatesIff(request: nat)
    ensures (exists n: nat :: Doubled(n) >= request) <==> request <= TWO63
  {
    Pow2Word();
    assert Doubled(63) == TWO63;
    if request > TWO63 {
      forall n: nat
        ensures Doubled(n) < request
      {
        if n < 63 {
          Pow2Monotone(n, 63);
        } else if n > 63 {
          Pow2Add(n - 64, 64);
          QuotientUnique(Pow2(n), TWO64, Pow2(n - 64), 0);
        }
      }
    }
  }

  /** Both constructors' rounding loop. The result is the least power of two that
      is at least the request; only a request of 0 or 1 yields capacity 1. */
  method RoundUpCapacity(request: nat) returns (cap: nat, ghost k: nat)
    requires request <= TWO63
    ensures k <= 63 && cap == Pow2(k) && cap >= request
    ensures k > 0 ==> Pow2(k - 1) < request
    ensures cap >= 2 <==> request >= 2
  {
    Pow2Word();
    cap, k := 1, 0;
    while cap < request
      invariant k <= 63 && cap == Pow2(k)
      invariant k > 0 ==> Pow2(k - 1) < request
      decreases TWO64 - cap
    {
      assert k != 63;
      if k < 62 { Pow2Monotone(k + 1, 63); }
      cap := Wrap64(cap * 2);
      k := k + 1;
    }
    if k > 0 { assert cap == 2 * Pow2(k - 1); }
  }
}
