/** What a bounded buffer that can overwrite its oldest element does to the sequence
    of its contents, and what that means over a whole run. */
module RingSpec {
  import opened Words

  /** The last `n` elements. */
  function Last<T>(s: seq<T>, n: nat): (r: seq<T>)
    ensures |r| == if |s| < n then |s| else n
  {
    if |s| <= n then s else s[|s| - n..]
  }

  /** Writing one element into a buffer of `usable` places. */
  function Put<T>(view: seq<T>, x: T, usable: nat, overwrite: bool): seq<T> {
    if |view| >= usable && !overwrite then view else Last(view + [x], usable)
  }

  predicate Accepts<T>(view: seq<T>, usable: nat, overwrite: bool) {
    |view| < usable || overwrite
  }

  /** Single writes one after another, stopping at the first that is rejected. */
  function PutAll<T>(view: seq<T>, xs: seq<T>, usable: nat, overwrite: bool): (r: (seq<T>, nat))
    ensures r.1 <= |xs|
    decreases xs
  {
    if xs == [] || !Accepts(view, usable, overwrite) then (view, 0)
    else
      var (v, n) := PutAll(Put(view, xs[0], usable, overwrite), xs[1..], usable, overwrite);
      (v, n + 1)
  }

  /** Single reads one after another, stopping when the buffer is empty. */
  function TakeAll<T>(view: seq<T>, n: nat): (r: (seq<T>, seq<T>)) {
    if n == 0 || view == [] then ([], view)
    else var (out, rest) := TakeAll(view[1..], n - 1); ([view[0]] + out, rest)
  }

  /** How many elements a burst write stores. */
  function Stored<T>(view: seq<T>, xs: seq<T>, usable: nat, overwrite: bool): nat {
    if overwrite then |xs|
    else if |view| >= usable then 0
    else Min(|xs|, usable - |view|)
  }

  /** A burst write leaves the last `usable` elements of the old contents followed
      by what it stored: everything when it overwrites, else what fits. */
  lemma {:induction false} PutAllIs<T>(view: seq<T>, xs: seq<T>, usable: nat, overwrite: bool)
    requires |view| <= usable
    ensures var n := Stored(view, xs, usable, overwrite);
            PutAll(view, xs, usable, overwrite) == (Last(view + xs[..n], usable), n)
    decreases xs
  {
    if xs == [] || !Accepts(view, usable, overwrite) {
      var n := Stored(view, xs, usable, overwrite);
      assert n == 0 && view + xs[..0] == view;
    } else {
      var v := Put(view, xs[0], usable, overwrite);
      var n := Stored(v, xs[1..], usable, overwrite);
      PutAllIs(v, xs[1..], usable, overwrite);
      assert Stored(view, xs, usable, overwrite) == n + 1;
      PutThenLast(view, xs, n, usable, overwrite);
    }
  }

  lemma PutThenLast<T>(view: seq<T>, xs: seq<T>, n: nat, usable: nat, overwrite: bool)
    requires xs != [] && n < |xs| && Accepts(view, usable, overwrite)
    ensures Last(Put(view, xs[0], usable, overwrite) + xs[1..][..n], usable) == Last(view + xs[..n + 1], usable)
  {
    LastOfLast(view + [xs[0]], xs[1..][..n], usable);
    assert xs[..n + 1] == [xs[0]] + xs[1..][..n];
    assert view + [xs[0]] + xs[1..][..n] == view + xs[..n + 1];
  }

  lemma LastOfLast<T>(a: seq<T>, b: seq<T>, n: nat)
    ensures Last(Last(a, n) + b, n) == Last(a + b, n)
  {
  }

  /** A burst read is a split of the contents. */
  lemma {:induction false} TakeAllIs<T>(view: seq<T>, n: nat)
    ensures var k := Min(n, |view|);
            TakeAll(view, n) == (view[..k], view[k..])
  {
    if n > 0 && view != [] {
      TakeAllIs(view[1..], n - 1);
      var k := Min(n - 1, |view[1..]|);
      assert view[..k + 1] == [view[0]] + view[1..][..k];
      assert view[k + 1..] == view[1..][k..];
    }
  }

  // ---- whole runs -------------------------------------------------------------

  datatype Op<T> = Write(x: T) | Read

  /** A run since the last reset: the contents, every accepted write, every value
      read with the index of the write it came from, and how many were overwritten. */
  datatype History<T> = History(view: seq<T>, written: seq<T>, read: seq<T>, from: seq<nat>, overwritten: nat)

  function Apply<T>(h: History<T>, op: Op<T>, usable: nat, overwrite: bool): History<T> {
    match op
    case Write(x) =>
      if !Accepts(h.view, usable, overwrite) then h
      else
        var v := Put(h.view, x, usable, overwrite);
        h.(view := v, written := h.written + [x],
           overwritten := if |v| <= |h.view| then h.overwritten + (|h.view| + 1 - |v|) else h.overwritten)
    case Read =>
      if h.view == [] then h
      else h.(view := h.view[1..], read := h.read + [h.view[0]], from := h.from + [|h.read| + h.overwritten])
  }

  function ApplyAll<T>(h: History<T>, ops: seq<Op<T>>, usable: nat, overwrite: bool): History<T> {
    if ops == [] then h
    else Apply(ApplyAll(h, ops[..|ops| - 1], usable, overwrite), ops[|ops| - 1], usable, overwrite)
  }

  function Empty<T>(): History<T> {
    History([], [], [], [], 0)
  }

  /** A burst as the single operations it stands for. */
  function Reads<T>(n: nat): (r: seq<Op<T>>)
    ensures |r| == n
  {
    seq(n, _ => Read)
  }

  function Writes<T>(xs: seq<T>): (r: seq<Op<T>>)
    ensures |r| == |xs|
  {
    seq(|xs|, i requires 0 <= i < |xs| => Write(xs[i]))
  }

  ghost predicate Conserved<T>(h: History<T>, usable: nat, overwrite: bool) {
    var oldest := |h.read| + h.overwritten;
    && |h.written| == oldest + |h.view|
    && |h.view| <= usable
    && h.view == h.written[oldest..]
    && |h.from| == |h.read|
    && (forall i :: 0 <= i < |h.read| ==> h.from[i] < oldest && h.read[i] == h.written[h.from[i]])
    && (forall i, j :: 0 <= i < j < |h.read| ==> h.from[i] < h.from[j])
    && (!overwrite ==> h.overwritten == 0 && h.read == h.written[..oldest])
  }

  lemma WriteConserves<T>(h: History<T>, x: T, usable: nat, overwrite: bool)
    requires Conserved(h, usable, overwrite)
    ensures Conserved(Apply(h, Write(x), usable, overwrite), usable, overwrite)
  {
    var g := Apply(h, Write(x), usable, overwrite);
    if Accepts(h.view, usable, overwrite) {
      var oldest := |h.read| + h.overwritten;
      assert g.written[oldest..] == h.view + [x];
      assert g.view == g.written[|g.read| + g.overwritten..];
      if !overwrite { assert g.written[..oldest] == h.written[..oldest]; }
    }
  }

  lemma ReadConserves<T>(h: History<T>, usable: nat, overwrite: bool)
    requires Conserved(h, usable, overwrite)
    ensures Conserved(Apply(h, Read, usable, overwrite), usable, overwrite)
  {
    var g := Apply(h, Read, usable, overwrite);
    if h.view != [] {
      var oldest := |h.read| + h.overwritten;
      assert h.view[0] == h.written[oldest];
      assert g.view == g.written[oldest + 1..];
      if !overwrite { assert g.read == g.written[..oldest + 1]; }
    }
  }

  /** In every run, accepted writes are read, overwritten or still in the buffer;
      the values read are, in order, some of the accepted writes, all older than
      the contents; the contents are the latest writes; and without overwriting
      the values read followed by the contents are the writes themselves. */
  lemma {:induction false} EveryRunConserves<T>(ops: seq<Op<T>>, usable: nat, overwrite: bool)
    ensures var h := ApplyAll(Empty(), ops, usable, overwrite);
            && Conserved(h, usable, overwrite)
            && |h.written| == |h.read| + h.overwritten + |h.view|
            && (!overwrite ==> h.read + h.view == h.written)
  {
    if ops != [] {
      var front, last := ops[..|ops| - 1], ops[|ops| - 1];
      EveryRunConserves(front, usable, overwrite);
      match last
      case Write(x) => WriteConserves(ApplyAll(Empty(), front, usable, overwrite), x, usable, overwrite);
      case Read => ReadConserves(ApplyAll(Empty(), front, usable, overwrite), usable, overwrite);
    }
  }

  lemma {:induction false} ApplyAppend<T>(h: History<T>, a: seq<Op<T>>, b: seq<Op<T>>, usable: nat, overwrite: bool)
    ensures ApplyAll(h, a + b, usable, overwrite) ==
            ApplyAll(ApplyAll(h, a, usable, overwrite), b, usable, overwrite)
    decreases b
  {
    if b == [] {
      assert a + b == a;
    } else {
      var front := b[..|b| - 1];
      assert (a + b)[..|a + b| - 1] == a + front;
      ApplyAppend(h, a, front, usable, overwrite);
    }
  }

  lemma ApplyFirst<T>(h: History<T>, ops: seq<Op<T>>, usable: nat, overwrite: bool)
    requires ops != []
    ensures ApplyAll(h, ops, usable, overwrite) ==
            ApplyAll(Apply(h, ops[0], usable, overwrite), ops[1..], usable, overwrite)
  {
    assert ops == ops[..1] + ops[1..];
    ApplyAppend(h, ops[..1], ops[1..], usable, overwrite);
    assert ops[..1][..0] == [];
    assert ApplyAll(h, ops[..1], usable, overwrite) == Apply(h, ops[0], usable, overwrite);
  }

  /** Single writes of `xs` are the first one, and the others if it was accepted; after
      a rejection the others are rejected too. */
  lemma FirstWrite<T>(h: History<T>, g: History<T>, xs: seq<T>, usable: nat, overwrite: bool)
    requires xs != [] && g == Apply(h, Write(xs[0]), usable, overwrite)
    ensures var (u, n) := PutAll(g.view, xs[1..], usable, overwrite);
            && PutAll(h.view, xs, usable, overwrite).0 == u
            && h.written + xs[..PutAll(h.view, xs, usable, overwrite).1] == g.written + xs[1..][..n]
  {
    if Accepts(h.view, usable, overwrite) {
      var n := PutAll(g.view, xs[1..], usable, overwrite).1;
      assert xs[..n + 1] == [xs[0]] + xs[1..][..n];
    }
  }

  /** A burst write is a run of single writes, those after a rejection included. */
  lemma {:induction false} BurstIsWrites<T>(h: History<T>, xs: seq<T>, usable: nat, overwrite: bool)
    ensures ApplyAll(h, Writes(xs), usable, overwrite).view == PutAll(h.view, xs, usable, overwrite).0
    ensures ApplyAll(h, Writes(xs), usable, overwrite).written ==
            h.written + xs[..PutAll(h.view, xs, usable, overwrite).1]
    decreases xs
  {
    if xs != [] {
      ApplyFirst(h, Writes(xs), usable, overwrite);
      assert Writes(xs)[1..] == Writes(xs[1..]);
      var g := Apply(h, Write(xs[0]), usable, overwrite);
      BurstIsWrites(g, xs[1..], usable, overwrite);
      FirstWrite(h, g, xs, usable, overwrite);
    }
  }

  /** A burst read is a run of single reads. */
  lemma {:induction false} BurstIsReads<T>(h: History<T>, n: nat, usable: nat, overwrite: bool)
    ensures var g := ApplyAll(h, Reads(n), usable, overwrite);
            g.view == TakeAll(h.view, n).1 && g.read == h.read + TakeAll(h.view, n).0
    decreases n
  {
    if n > 0 {
      var g := Apply(h, Read, usable, overwrite);
      ApplyFirst(h, Reads(n), usable, overwrite);
      assert Reads<T>(n)[1..] == Reads<T>(n - 1);
      BurstIsReads(g, n - 1, usable, overwrite);
    }
  }
}
