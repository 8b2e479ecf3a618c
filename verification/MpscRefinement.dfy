/** The multi-producer ring refines a bounded queue that drops when it is full. */
module MpscRefinement {
  import opened Words
  import opened Records
  import opened MpscModel
  import opened MpscInvariant
  import opened MpscHistory
  import opened MpscTheorems
  import opened BoundedFifo

  /** What the ring means as a queue. */
  function Abs(s: State): Fifo {
    Fifo(s.cap, Claimed(s, |s.claims|), s.sink, s.freed, s.rejected)
  }

  lemma InitRefines(cap: nat, minLevel: Level)
    requires cap > 0
    ensures FifoInit(Abs(Init(cap, minLevel)))
  {
  }

  /** The exchange appends the caller's own record to a queue that is not full, or
      it changes nothing. */
  lemma ClaimRefines(s: State, p: ProducerId, spurious: bool)
    requires Run(s) && Pc(s, p).TryClaim?
    ensures var t := LoopStep(s, p, spurious);
            if s.enq == Pc(s, p).pos && !spurious then
              !Full(Abs(s)) && Abs(t) == Abs(s).(accepted := Abs(s).accepted + [Pc(s, p).call.rec])
            else
              Abs(t) == Abs(s)
  {
    RunFacts(s);
    assert PcOk(s, p, s.pcs[p]);
  }

  /** A call that takes the drop branch is rejected by a full queue. */
  lemma LoadSeqRefines(s: State, p: ProducerId)
    requires Run(s) && Pc(s, p).LoadSeq?
    ensures var t := LoopStep(s, p, false);
            if Pc(t, p).CountDrop? then RejectNew(Abs(s), Abs(t)) else Abs(t) == Abs(s)
  {
    RunFacts(s);
    LoadedSequence(s, Pc(s, p).pos);
  }

  lemma LoopRefines(s: State, p: ProducerId, spurious: bool)
    requires Run(s) && !Pc(s, p).Idle? && !Owning(Pc(s, p))
    ensures FifoNext(Abs(s), Abs(LoopStep(s, p, spurious)))
  {
    if Pc(s, p).LoadSeq? {
      LoadSeqRefines(s, p);
    } else if Pc(s, p).TryClaim? {
      ClaimRefines(s, p, spurious);
      var t := LoopStep(s, p, spurious);
      assert Abs(t) == Abs(s) || Accept(Abs(s), Abs(t));
    } else {
      assert Abs(LoopStep(s, p, spurious)) == Abs(s);
    }
  }

  lemma EmitRefines(s: State)
    requires Inv(s) && s.drain.Emit?
    ensures Deliver(Abs(s), Abs(DrainStep(s)))
  {
    var q := s.drain.at;
    assert CellAt(s, q).sequence == q + 1 && Holds(CellAt(s, q).payload, s.claims[q].call.rec);
    assert DrainStep(s).sink == s.sink + [s.claims[q].call.rec];
  }

  lemma FreeRefines(s: State)
    requires Inv(s) && s.drain.Free?
    ensures Release(Abs(s), Abs(DrainStep(s)))
  {
  }

  lemma DrainUnseen(s: State)
    requires !s.drain.Emit? && !s.drain.Free?
    ensures Abs(DrainStep(s)) == Abs(s)
  {
  }

  /** The drain thread delivers the next accepted record when it calls the sink,
      releases one place when it frees the cell, and changes nothing else. */
  lemma DrainRefines(s: State)
    requires Run(s)
    ensures var t := DrainStep(s);
            if s.drain.Emit? then Deliver(Abs(s), Abs(t))
            else if s.drain.Free? then Release(Abs(s), Abs(t))
            else Abs(t) == Abs(s)
  {
    hide DrainStep;
    RunFacts(s);
    if s.drain.Emit? {
      EmitRefines(s);
    } else if s.drain.Free? {
      FreeRefines(s);
    } else {
      DrainUnseen(s);
    }
  }

  /** Every step of every run is a step of the queue or invisible to it. */
  lemma StepRefines(s: State, a: Action)
    requires Run(s)
    ensures FifoNext(Abs(s), Abs(Step(s, a)))
  {
    match a
    case Producer(p, spurious) =>
      if Owning(Pc(s, p)) {
        assert Abs(FillStep(s, p)) == Abs(s);
      } else if !Pc(s, p).Idle? {
        LoopRefines(s, p, spurious);
      }
    case Drain => DrainRefines(s);
    case StartLog(p, rec) => assert Abs(LogStep(s, p, rec)) == Abs(s);
    case _ => QuietRefines(s, a);
  }

  lemma QuietRefines(s: State, a: Action)
    requires a.SetLevel? || a.Stop? || a.BeginFlush? || a.FlushLoad?
    ensures Abs(Step(s, a)) == Abs(s)
  {
  }

  // ---- every run ------------------------------------------------------------

  /** The states that a schedule runs through, seen as queues. */
  ghost function Trace(s: State, schedule: seq<Action>): seq<Fifo> {
    if schedule == [] then [Abs(s)]
    else Trace(s, schedule[..|schedule| - 1]) + [Abs(Exec(s, schedule))]
  }

  /** Refinement: every run of the ring is, seen as a queue, a run of the queue. */
  lemma {:induction false} RunRefines(cap: nat, minLevel: Level, schedule: seq<Action>)
    requires cap >= 2 && Bounded(Exec(Init(cap, minLevel), schedule))
    ensures FifoRun(Trace(Init(cap, minLevel), schedule))
    ensures var trace := Trace(Init(cap, minLevel), schedule);
            trace[|trace| - 1] == Abs(Exec(Init(cap, minLevel), schedule))
    decreases schedule
  {
    var s := Init(cap, minLevel);
    InitRefines(cap, minLevel);
    if schedule != [] {
      var front, last := schedule[..|schedule| - 1], schedule[|schedule| - 1];
      StepBounded(Exec(s, front), last);
      RunRefines(cap, minLevel, front);
      ExecCap(s, front);
      assert Run(Exec(s, front));
      StepRefines(Exec(s, front), last);
    }
  }
}
