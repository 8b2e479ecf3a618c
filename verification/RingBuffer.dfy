/** `RingBuffer<T, N>`: a circular buffer whose unmasked 64-bit indices run freely and
    wrap. Every method of the original holds the mutex from start to end, so each
    is one atomic operation here. */
module RingBuffers {
  import opened Words
  import opened RingSpec

  // ---- positions and slots ---------------------------------------------------------

  /** The elements at positions `[r, w)` of a ring. */
  function Window<T>(ring: seq<T>, r: nat, w: nat): (v: seq<T>)
    requires |ring| > 0 && r <= w
    ensures |v| == w - r
  {
    seq(w - r, i requires 0 <= i < w - r => ring[Slot(|ring|, r + i)])
  }

  /** Storing at position `w` appends to the window, unless the window is full, when
      it also drops the oldest element. */
  lemma StoreAppends<T>(ring: seq<T>, r: nat, w: nat, x: T)
    requires |ring| > 0 && r <= w < r + |ring|
    ensures var ring' := ring[Slot(|ring|, w) := x];
            Window(ring', r, w + 1) == Window(ring, r, w) + [x]
  {
    var ring' := ring[Slot(|ring|, w) := x];
    WindowDistinct(|ring|, r, w);
    forall i | 0 <= i < w + 1 - r
      ensures Window(ring', r, w + 1)[i] == (Window(ring, r, w) + [x])[i]
    {
      if i < w - r { assert Slot(|ring|, r + i) != Slot(|ring|, w); }
    }
  }

  lemma DropOldest<T>(ring: seq<T>, r: nat, w: nat)
    requires |ring| > 0 && r < w
    ensures Window(ring, r + 1, w) == Window(ring, r, w)[1..]
  {
    forall i | 0 <= i < w - r - 1
      ensures Window(ring, r + 1, w)[i] == Window(ring, r, w)[1..][i]
    {
      assert r + 1 + i == r + (i + 1);
    }
  }

  lemma StoreOverwrites<T>(ring: seq<T>, r: nat, w: nat, x: T, full: bool)
    requires |ring| > 0 && r <= w < r + |ring| && (full <==> w - r == |ring| - 1)
    ensures Window(ring[Slot(|ring|, w) := x], if full then r + 1 else r, w + 1) ==
            Last(Window(ring, r, w) + [x], |ring| - 1)
  {
    StoreAppends(ring, r, w, x);
    DropOldest(ring[Slot(|ring|, w) := x], r, w + 1);
  }

  /** The full test compares two masked words: it holds exactly when all places but
      one are in use. */
  lemma FullTest(bits: nat, r: nat, w: nat)
    requires bits <= 63 && r <= w <= r + Pow2(bits) - 1
    ensures Masked(Pow2(bits), Wrap64(w % TWO64 + 1)) == Masked(Pow2(bits), r % TWO64)
            <==> w - r == Pow2(bits) - 1
  {
    var n := Pow2(bits);
    WrapStep(w);
    MaskOfWrapped(bits, w + 1);
    MaskOfWrapped(bits, r);
    if w + 1 < r + n {
      SlotInjective(n, r, w + 1);
    } else {
      SlotLaps(n, r, 1);
    }
  }

  /** The masked distance of the two words is the number of elements. */
  lemma DistanceTest(bits: nat, r: nat, w: nat)
    requires bits <= 63 && r <= w <= r + Pow2(bits) - 1
    ensures Minus64(w % TWO64, r % TWO64) == w - r
    ensures Masked(Pow2(bits), w - r) == w - r
    ensures w % TWO64 == r % TWO64 <==> w == r
  {
    Pow2Word();
    if bits < 63 { Pow2Monotone(bits, 63); }
    WrappedDistance(r, w);
    MaskIsSlot(bits, w - r);
  }

  lemma IndexAfter(bits: nat, r: nat, i: nat)
    requires bits <= 63
    ensures Masked(Pow2(bits), Wrap64(r % TWO64 + i)) == Slot(Pow2(bits), r + i)
  {
    MaskOfWrapped(bits, r + i);
    WrapLate(r, i);
  }

  // ---- the class ---------------------------------------------------------------------

  class RingBuffer<T(0)> {
    const N: nat
    const buffer: array<T>
    const enableOverwrite: bool
    var writeIndex: Word
    var readIndex: Word

    ghost const bits: nat
    /** How many times each index was advanced; the words are these modulo `2^64`. */
    ghost var written: nat
    ghost var consumed: nat
    /** The single reads and writes since the last reset, bursts spelled out. */
    ghost var ops: seq<Op<T>>

    ghost predicate Wired()
      reads this
    {
      && bits <= 63 && N == Pow2(bits) && buffer.Length == N
      && consumed <= written <= consumed + N - 1
      && writeIndex == written % TWO64 && readIndex == consumed % TWO64
    }

    /** The contents, oldest first. */
    ghost function View(): (v: seq<T>)
      requires Wired()
      reads this, buffer
    {
      Window(buffer[..], consumed, written)
    }

    /** What those operations amount to. */
    ghost function Past(): History<T>
      requires N > 0
      reads this
    {
      ApplyAll(Empty(), ops, N - 1, enableOverwrite)
    }

    ghost predicate Valid()
      reads this, buffer
    {
      Wired() && View() == Past().view
    }

    /** Over the life of the buffer, accepted writes are read, overwritten or still
        in it; what was read is, in order, some of the accepted writes; the contents
        are the latest of them; and without overwriting nothing is lost. */
    lemma LifeConserves()
      requires Valid()
      ensures Conserved(Past(), N - 1, enableOverwrite) && Past().view == View()
      ensures |Past().written| == |Past().read| + Past().overwritten + |View()|
      ensures !enableOverwrite ==> Past().read + View() == Past().written
    {
      EveryRunConserves(ops, N - 1, enableOverwrite);
    }

    /** The ghost half of a method: the operations it stands for. */
    ghost method Note(more: seq<Op<T>>)
      requires N > 0
      modifies this`ops
      ensures ops == old(ops) + more
      ensures Past() == ApplyAll(old(Past()), more, N - 1, enableOverwrite)
    {
      ApplyAppend(Empty(), ops, more, N - 1, enableOverwrite);
      ops := ops + more;
    }

    lemma OneOp(h: History<T>, op: Op<T>)
      requires N > 0
      ensures ApplyAll(h, [op], N - 1, enableOverwrite) == Apply(h, op, N - 1, enableOverwrite)
    {
      assert [op][..0] == [];
    }

    constructor (k: nat, overwrite: bool)
      requires k <= 63
      ensures Valid() && fresh(buffer) && View() == [] && ops == []
      ensures N == Pow2(k) && enableOverwrite == overwrite
    {
      N, bits := Pow2(k), k;
      buffer := new T[Pow2(k)];
      enableOverwrite := overwrite;
      writeIndex, readIndex := 0, 0;
      written, consumed, ops := 0, 0, [];
    }

    method Reset()
      requires Valid()
      modifies this
      ensures Valid() && View() == [] && ops == []
    {
      writeIndex, readIndex := 0, 0;
      written, consumed, ops := 0, 0, [];
    }

    // ---- size queries ------------------------------------------------------------------

    method IsEmpty() returns (r: bool)
      requires Valid()
      ensures r <==> View() == []
    {
      DistanceTest(bits, consumed, written);
      r := readIndex == writeIndex;
    }

    method IsFull() returns (r: bool)
      requires Valid()
      ensures r <==> |View()| == N - 1
    {
      FullTest(bits, consumed, written);
      r := Masked(N, Wrap64(writeIndex + 1)) == Masked(N, readIndex);
    }

    method GetFreeSize() returns (n: nat)
      requires Valid()
      ensures n == N - 1 - |View()|
    {
      DistanceTest(bits, consumed, written);
      n := N - 1 - Masked(N, Minus64(writeIndex, readIndex));
    }

    method GetOccupiedSize() returns (n: nat)
      requires Valid()
      ensures n == |View()|
    {
      DistanceTest(bits, consumed, written);
      n := Masked(N, Minus64(writeIndex, readIndex));
    }

    /** A copy of the raw storage: the contents lie in it from the masked read index
        on, in order, going round at the end. */
    method GetBuffer() returns (copy: seq<T>)
      requires Valid()
      ensures |copy| == N && copy == buffer[..]
      ensures forall i :: 0 <= i < |View()| ==> View()[i] == copy[Masked(N, Wrap64(readIndex + i))]
    {
      hide ApplyAll;
      copy := buffer[..];
      forall i | 0 <= i < |View()|
        ensures View()[i] == copy[Masked(N, Wrap64(readIndex + i))]
      {
        IndexAfter(bits, consumed, i);
      }
    }

    // ---- one element ---------------------------------------------------------------------

    /** What both writes do for one element. */
    method PutOne(x: T) returns (ok: bool)
      requires Wired()
      modifies this`writeIndex, this`readIndex, this`written, this`consumed, buffer
      ensures Wired()
      ensures ok <==> Accepts(old(View()), N - 1, enableOverwrite)
      ensures View() == Put(old(View()), x, N - 1, enableOverwrite)
    {
      FullTest(bits, consumed, written);
      if Masked(N, Wrap64(writeIndex + 1)) == Masked(N, readIndex) {
        if !enableOverwrite {
          return false;
        }
        Store(x, true);
      } else {
        Store(x, false);
      }
      ok := true;
    }

    /** Advancing the read index if the buffer is full, and storing. */
    method Store(x: T, full: bool)
      requires Wired() && (full <==> written - consumed == N - 1)
      modifies this`writeIndex, this`readIndex, this`written, this`consumed, buffer
      ensures Wired()
      ensures View() == Last(old(View()) + [x], N - 1)
    {
      hide Window;
      StoreOverwrites(buffer[..], consumed, written, x, full);
      IndexAfter(bits, written, 0);
      WrapStep(written);
      WrapStep(consumed);
      if full {
        readIndex := Wrap64(readIndex + 1);
        consumed := consumed + 1;
      }
      buffer[Masked(N, writeIndex)] := x;
      writeIndex := Wrap64(writeIndex + 1);
      written := written + 1;
    }

    /** What both reads do for one element. */
    method TakeOne() returns (x: T)
      requires Wired() && written > consumed
      modifies this`readIndex, this`consumed
      ensures Wired()
      ensures x == old(View())[0] && View() == old(View())[1..]
    {
      IndexAfter(bits, consumed, 0);
      WrapStep(consumed);
      DropOldest(buffer[..], consumed, written);
      x := buffer[Masked(N, readIndex)];
      readIndex := Wrap64(readIndex + 1);
      consumed := consumed + 1;
    }

    /** `Write(const T&)`: the last `N - 1` elements of the contents and `x`, or a
        rejection when the buffer is full and may not overwrite. */
    method Write(x: T) returns (n: nat)
      requires Valid()
      modifies this, buffer
      ensures Valid()
      ensures n == if |old(View())| < N - 1 || enableOverwrite then 1 else 0
      ensures View() == if n == 1 then Last(old(View()) + [x], N - 1) else old(View())
      ensures n == 1 ==> View() == if |old(View())| < N - 1 then old(View()) + [x] else (old(View()) + [x])[1..]
      ensures ops == old(ops) + [Op.Write(x)]
      ensures Past().written == old(Past()).written + if n == 1 then [x] else []
    {
      hide ApplyAll;
      var ok := PutOne(x);
      n := if ok then 1 else 0;
      OneOp(Past(), Op.Write(x));
      Note([Op.Write(x)]);
    }

    /** `Read(T&)`: the oldest element, or nothing. */
    method Read(data: T) returns (n: nat, data': T)
      requires Valid()
      modifies this
      ensures Valid()
      ensures old(View()) == [] ==> n == 0 && data' == data && View() == []
      ensures old(View()) != [] ==> n == 1 && [data'] + View() == old(View())
      ensures ops == old(ops) + [Op.Read]
      ensures Past().read == old(Past()).read + if n == 1 then [data'] else []
    {
      hide ApplyAll;
      DistanceTest(bits, consumed, written);
      OneOp(Past(), Op.Read);
      if readIndex == writeIndex {
        Note([Op.Read]);
        return 0, data;
      }
      data' := TakeOne();
      n := 1;
      Note([Op.Read]);
    }

    /** `PeekAt`: the `n`-th oldest element, if there is one. */
    method PeekAt(data: T, n: Word) returns (k: nat, data': T)
      requires Valid()
      ensures k == if n < |View()| then 1 else 0
      ensures data' == if n < |View()| then View()[n] else data
    {
      hide ApplyAll;
      DistanceTest(bits, consumed, written);
      IndexAfter(bits, consumed, n);
      if n >= Masked(N, Minus64(writeIndex, readIndex)) {
        return 0, data;
      }
      data' := buffer[Masked(N, Wrap64(readIndex + n))];
      k := 1;
    }

    // ---- bursts ---------------------------------------------------------------------------

    /** `Read(std::vector<T>&, btr)`: the longest prefix of the contents that was asked
        for and fits, taken out. */
    method ReadBurst(data: array<T>, btr: nat) returns (n: nat)
      requires Valid() && data != buffer
      modifies this, data
      ensures Valid()
      ensures n == Min(Min(btr, data.Length), |old(View())|)
      ensures data[..n] + View() == old(View())
      ensures data[..n] == TakeAll(old(View()), Min(btr, data.Length)).0
      ensures ops == old(ops) + Reads(Min(btr, data.Length))
      ensures Past().read == old(Past()).read + data[..n]
      ensures forall i :: n <= i < data.Length ==> data[i] == old(data[i])
    {
      hide ApplyAll, TakeAll;
      var limit := if btr > data.Length then data.Length else btr;
      TakeAllIs(View(), limit);
      BurstIsReads(Past(), limit, N - 1, enableOverwrite);
      n := TakeLoop(data, limit);
      Note(Reads(limit));
    }

    method TakeLoop(data: array<T>, limit: nat) returns (n: nat)
      requires Wired() && data != buffer && limit <= data.Length
      modifies this`readIndex, this`consumed, data
      ensures Wired()
      ensures n == Min(limit, |old(View())|)
      ensures data[..n] == old(View())[..n] && View() == old(View())[n..]
      ensures forall i :: n <= i < data.Length ==> data[i] == old(data[i])
    {
      ghost var v := View();
      n := 0;
      while n < limit
        invariant n <= limit && n <= |v| && Wired()
        invariant data[..n] == v[..n] && View() == v[n..]
        invariant forall i :: n <= i < data.Length ==> data[i] == old(data[i])
      {
        DistanceTest(bits, consumed, written);
        if readIndex == writeIndex {
          return;
        }
        assert v[n..][0] == v[n] && v[n..][1..] == v[n + 1..];
        var x := TakeOne();
        data[n] := x;
        assert data[..n + 1] == data[..n] + [x];
        n := n + 1;
      }
    }

    /** `Peek`: the same prefix, left in place. */
    method Peek(data: array<T>, btp: nat) returns (n: nat)
      requires Valid() && data != buffer
      modifies data
      ensures Valid() && View() == old(View())
      ensures n == Min(Min(btp, data.Length), |View()|)
      ensures data[..n] == View()[..n]
      ensures forall i :: n <= i < data.Length ==> data[i] == old(data[i])
    {
      hide ApplyAll;
      DistanceTest(bits, consumed, written);
      var available := Masked(N, Minus64(writeIndex, readIndex));
      n := Min(Min(btp, data.Length), available);
      for i := 0 to n
        invariant data[..i] == View()[..i] && View() == old(View())
        invariant forall j :: i <= j < data.Length ==> data[j] == old(data[j])
      {
        IndexAfter(bits, consumed, i);
        data[i] := buffer[Masked(N, Wrap64(readIndex + i))];
      }
    }

    /** `Write(const std::vector<T>&, btw)`: single writes of the clamped prefix, one
        after another, up to the first that is rejected. */
    method WriteBurst(newData: seq<T>, btw: nat) returns (n: nat)
      requires Valid()
      modifies this, buffer
      ensures Valid()
      ensures var xs := newData[..Min(btw, |newData|)];
              && n == Stored(old(View()), xs, N - 1, enableOverwrite)
              && n == (if enableOverwrite then |xs| else Min(|xs|, N - 1 - |old(View())|))
              && View() == (old(View()) + xs[..n])[|old(View())| + n - Min(|old(View())| + n, N - 1)..]
              && View() == Last(old(View()) + xs[..n], N - 1)
              && (View(), n) == PutAll(old(View()), xs, N - 1, enableOverwrite)
              && ops == old(ops) + Writes(xs)
              && Past().written == old(Past()).written + xs[..n]
    {
      hide ApplyAll, PutAll;
      var limit := if btw > |newData| then |newData| else btw;
      ghost var v := View();
      n := PutLoop(newData, limit);
      PutAllIs(v, newData[..limit], N - 1, enableOverwrite);
      BurstIsWrites(Past(), newData[..limit], N - 1, enableOverwrite);
      Note(Writes(newData[..limit]));
    }

    method PutLoop(newData: seq<T>, limit: nat) returns (n: nat)
      requires Wired() && limit <= |newData|
      modifies this`writeIndex, this`readIndex, this`written, this`consumed, buffer
      ensures Wired() && n <= limit
      ensures (View(), n) == PutAll(old(View()), newData[..limit], N - 1, enableOverwrite)
    {
      ghost var v, xs := View(), newData[..limit];
      n := 0;
      assert xs[0..] == xs;
      while n < limit
        invariant n <= limit && Wired()
        invariant PutsFrom(v, View(), xs, n)
      {
        PutsNext(v, View(), xs, n);
        var ok := PutOne(newData[n]);
        if !ok {
          return;
        }
        n := n + 1;
      }
      assert xs[limit..] == [];
    }

    /** After `n` single writes, which led from `v` to `u`, the rest of `xs` is due. */
    ghost predicate PutsFrom(v: seq<T>, u: seq<T>, xs: seq<T>, n: nat)
      requires n <= |xs| && N > 0
    {
      var (u', k) := PutAll(u, xs[n..], N - 1, enableOverwrite);
      PutAll(v, xs, N - 1, enableOverwrite) == (u', n + k)
    }

    lemma PutsNext(v: seq<T>, u: seq<T>, xs: seq<T>, n: nat)
      requires n < |xs| && N > 0 && PutsFrom(v, u, xs, n)
      ensures if Accepts(u, N - 1, enableOverwrite)
              then PutsFrom(v, Put(u, xs[n], N - 1, enableOverwrite), xs, n + 1)
              else PutAll(v, xs, N - 1, enableOverwrite) == (u, n)
    {
      assert xs[n..][0] == xs[n] && xs[n..][1..] == xs[n + 1..];
    }
  }
}
