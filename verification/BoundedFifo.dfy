/** The specification that both real-time rings refine: a bounded queue that drops
    a new record when it is full. */
module BoundedFifo {
  import opened Records

  /** A bounded first-in first-out queue. A record occupies one of `cap` places
      from its acceptance until its release, which follows its delivery. */
  datatype Fifo = Fifo(cap: nat, accepted: seq<Record>, delivered: seq<Record>, released: nat, rejected: nat)

  ghost predicate FifoInit(f: Fifo) {
    f.accepted == [] && f.delivered == [] && f.released == 0 && f.rejected == 0
  }

  predicate Full(f: Fifo) {
    |f.accepted| == f.released + f.cap
  }

  ghost predicate Accept(f: Fifo, g: Fifo) {
    !Full(f) && exists r: Record :: g == f.(accepted := f.accepted + [r])
  }

  predicate RejectNew(f: Fifo, g: Fifo) {
    Full(f) && g == f.(rejected := f.rejected + 1)
  }

  predicate Deliver(f: Fifo, g: Fifo) {
    |f.delivered| < |f.accepted| && g == f.(delivered := f.delivered + [f.accepted[|f.delivered|]])
  }

  predicate Release(f: Fifo, g: Fifo) {
    f.released < |f.delivered| && g == f.(released := f.released + 1)
  }

  ghost predicate FifoNext(f: Fifo, g: Fifo) {
    f == g || Accept(f, g) || RejectNew(f, g) || Deliver(f, g) || Release(f, g)
  }

  // ---- what the queue promises --------------------------------------------

  ghost predicate FifoRun(trace: seq<Fifo>) {
    && trace != []
    && FifoInit(trace[0])
    && forall i :: 0 <= i < |trace| - 1 ==> FifoNext(trace[i], trace[i + 1])
  }

  /** In every run of the queue the delivered records are a prefix of the accepted
      ones and at most `cap` places are occupied. */
  lemma {:induction false} FifoSafe(trace: seq<Fifo>)
    requires FifoRun(trace)
    ensures var f := trace[|trace| - 1];
            && f.delivered <= f.accepted
            && f.released <= |f.delivered|
            && |f.accepted| <= f.released + f.cap
    decreases trace
  {
    if |trace| > 1 {
      var front := trace[..|trace| - 1];
      assert FifoRun(front) by {
        forall i | 0 <= i < |front| - 1 ensures FifoNext(front[i], front[i + 1]) {
          assert FifoNext(trace[i], trace[i + 1]);
        }
      }
      FifoSafe(front);
      assert FifoNext(trace[|trace| - 2], trace[|trace| - 1]);
    }
  }

  /** In every run of the queue a record is rejected only when the queue is full, and
      accepted only when it is not. */
  lemma FifoDropsWhenFull(trace: seq<Fifo>, i: nat)
    requires FifoRun(trace) && i + 1 < |trace|
    ensures var f, g := trace[i], trace[i + 1];
            && (g.rejected != f.rejected ==> |f.accepted| == f.released + f.cap && g.accepted == f.accepted)
            && (g.accepted != f.accepted ==> |f.accepted| < f.released + f.cap && f.accepted < g.accepted)
  {
    var front := trace[..i + 1];
    assert FifoRun(front) by {
      forall k | 0 <= k < |front| - 1 ensures FifoNext(front[k], front[k + 1]) {
        assert FifoNext(trace[k], trace[k + 1]);
      }
    }
    FifoSafe(front);
    assert FifoNext(trace[i], trace[i + 1]);
  }
}
