/** Two more invariants of the multi-producer ring, over its recorded history:
    who claimed what in which order, and how many calls ended in which way. */
module MpscHistory {
  import opened Words
  import opened Records
  import opened MpscModel
  import opened MpscInvariant

  // ---- the order of claims ----------------------------------------------

  /** Call ids are handed out in the order in which calls begin. */
  predicate CalledBy(s: State, c: Call, p: ProducerId) {
    c.id < |s.callers| && s.callers[c.id] == p
  }

  /** No claim in `[from, to)` is by `p`. */
  ghost predicate OnlyOthers(s: State, p: ProducerId, from: nat, to: nat) {
    forall q {:trigger s.claims[q]} :: from <= q < to && q < |s.claims| ==> s.claims[q].producer != p
  }

  ghost predicate ClaimsOrdered(s: State) {
    && (forall q :: 0 <= q < |s.claims| ==>
          var k := s.claims[q];
          && CalledBy(s, k.call, k.producer)
          && RetriesOk(k.call, q)
          && OnlyOthers(s, k.producer, k.call.start, q))
    && (forall i, j :: 0 <= i < j < |s.claims| && s.claims[i].producer == s.claims[j].producer ==>
          s.claims[i].call.id < s.claims[j].call.id)
  }

  ghost predicate PcOrdered(s: State, p: ProducerId, pc: ProducerPc) {
    && (!pc.Idle? ==> CalledBy(s, pc.call, p))
    && (Undecided(pc) ==>
          && OnlyOthers(s, p, pc.call.start, |s.claims|)
          && forall q :: 0 <= q < |s.claims| && s.claims[q].producer == p ==> s.claims[q].call.id < pc.call.id)
  }

  ghost predicate HistoryInv(s: State) {
    && ClaimsOrdered(s)
    && forall p :: p in s.pcs ==> PcOrdered(s, p, s.pcs[p])
  }

  lemma AdmitKeepsHistory(s: State, t: State, p: ProducerId, c: Call)
    requires HistoryInv(s)
    requires t.claims == s.claims && t.callers == s.callers + [p] && t.pcs == s.pcs[p := LoadPos(c)]
    requires c.id == |s.callers| && c.start == |s.claims|
    ensures HistoryInv(t)
  {
    forall o | o in t.pcs
      ensures PcOrdered(t, o, t.pcs[o])
    {
      if o in s.pcs { assert PcOrdered(s, o, s.pcs[o]); }
    }
    assert ClaimsOrdered(t);
  }

  lemma NewCallKeepsHistory(s: State, p: ProducerId, rec: Record)
    requires Inv(s) && HistoryInv(s)
    ensures HistoryInv(LogStep(s, p, rec))
  {
    if Pc(s, p) == Idle && |rec.text| <= MAX_MSG_LEN && rec.level >= s.minLevel {
      AdmitKeepsHistory(s, LogStep(s, p, rec), p, Call(|s.callers|, s.enq, rec, 0, 0));
    } else {
      MoveKeepsHistory(s, LogStep(s, p, rec), p);
    }
  }

  lemma ClaimKeepsHistory(s: State, p: ProducerId)
    requires Inv(s) && HistoryInv(s)
    requires Pc(s, p).TryClaim? && s.enq == Pc(s, p).pos
    ensures HistoryInv(ProducerStep(s, p, false))
  {
    var t := ProducerStep(s, p, false);
    var c := Pc(s, p).call;
    assert PcOrdered(s, p, s.pcs[p]) && PcOk(s, p, s.pcs[p]);
    assert t.claims == s.claims + [Claim(p, c)];
    assert ClaimsOrdered(t);
    forall o | o in t.pcs
      ensures PcOrdered(t, o, t.pcs[o])
    {
      if o in s.pcs { assert PcOrdered(s, o, s.pcs[o]); }
    }
  }

  /** What one access of a producer does to its own program counter and to the
      history, short of a successful claim. */
  ghost predicate Moved(s: State, t: State, p: ProducerId) {
    && t.claims == s.claims
    && t.callers == s.callers
    && (t.pcs != s.pcs ==>
        && !Pc(s, p).Idle?
        && t.pcs == s.pcs[p := Pc(t, p)]
        && (!Pc(t, p).Idle? ==>
              Pc(t, p).call.id == Pc(s, p).call.id && Pc(t, p).call.start == Pc(s, p).call.start)
        && (Undecided(Pc(t, p)) ==> Undecided(Pc(s, p))))
  }

  lemma FillMoves(s: State, p: ProducerId)
    requires Owning(Pc(s, p))
    ensures Moved(s, FillStep(s, p), p)
  {
  }

  lemma LoopMoves(s: State, p: ProducerId, spurious: bool)
    requires !Pc(s, p).Idle? && !Owning(Pc(s, p))
    requires Pc(s, p).TryClaim? ==> spurious || s.enq != Pc(s, p).pos
    ensures Moved(s, LoopStep(s, p, spurious), p)
  {
  }

  lemma MoveKeepsHistory(s: State, t: State, p: ProducerId)
    requires HistoryInv(s) && Moved(s, t, p)
    ensures HistoryInv(t)
  {
    forall o | o in t.pcs
      ensures PcOrdered(t, o, t.pcs[o])
    {
      assert o in s.pcs && PcOrdered(s, o, s.pcs[o]);
    }
  }

  lemma StepHistory(s: State, a: Action)
    requires Inv(s) && HistoryInv(s)
    ensures HistoryInv(Step(s, a))
  {
    match a
    case StartLog(p, rec) => NewCallKeepsHistory(s, p, rec);
    case Producer(p, spurious) =>
      if Pc(s, p).TryClaim? && s.enq == Pc(s, p).pos && !spurious {
        ClaimKeepsHistory(s, p);
      } else {
        ProducerKeepsHistory(s, p, spurious);
      }
    case _ => SameHistory(s, a);
  }

  lemma ProducerKeepsHistory(s: State, p: ProducerId, spurious: bool)
    requires HistoryInv(s)
    requires Pc(s, p).TryClaim? ==> spurious || s.enq != Pc(s, p).pos
    ensures HistoryInv(ProducerStep(s, p, spurious))
  {
    if Owning(Pc(s, p)) {
      FillMoves(s, p);
      MoveKeepsHistory(s, FillStep(s, p), p);
    } else if !Pc(s, p).Idle? {
      LoopMoves(s, p, spurious);
      MoveKeepsHistory(s, LoopStep(s, p, spurious), p);
    }
  }

  lemma SameHistory(s: State, a: Action)
    requires HistoryInv(s) && !a.StartLog? && !a.Producer?
    ensures HistoryInv(Step(s, a))
  {
    QuietStep(s, a);
    MoveKeepsHistory(s, Step(s, a), 0);
  }

  /** What the drain thread leaves alone ... */
  lemma DrainFrame(s: State)
    ensures var t := DrainStep(s);
            && t.claims == s.claims && t.callers == s.callers && t.pcs == s.pcs && t.drops == s.drops
            && t.enq == s.enq && t.flush == s.flush && t.running == s.running && t.cap == s.cap
            && t.filtered == s.filtered && t.rejected == s.rejected && t.dropped == s.dropped
            && t.minLevel == s.minLevel && s.freed <= t.freed
  {
  }

  ghost predicate Framed(s: State, t: State) {
    && t.drain == s.drain && t.freed == s.freed && t.deq == s.deq && t.sink == s.sink
    && t.flush == s.flush && t.running == s.running && t.cap == s.cap
    && t.filtered == s.filtered && t.callers == s.callers && s.drops <= t.drops && t.minLevel == s.minLevel
  }

  lemma FillFrame(s: State, p: ProducerId)
    requires Owning(Pc(s, p))
    ensures Framed(s, FillStep(s, p))
  {
  }

  lemma LoopFrame(s: State, p: ProducerId, spurious: bool)
    requires !Pc(s, p).Idle? && !Owning(Pc(s, p))
    ensures Framed(s, LoopStep(s, p, spurious))
  {
  }

  /** ... and what the producers do. */
  lemma ProducerFrame(s: State, p: ProducerId, spurious: bool)
    ensures Framed(s, ProducerStep(s, p, spurious))
  {
    hide FillStep, LoopStep;
    if Owning(Pc(s, p)) {
      FillFrame(s, p);
    } else if !Pc(s, p).Idle? {
      LoopFrame(s, p, spurious);
    }
  }

  /** No other thread touches the producers' program counters or their history. */
  lemma QuietStep(s: State, a: Action)
    requires !a.StartLog? && !a.Producer?
    ensures var t := Step(s, a);
            t.claims == s.claims && t.callers == s.callers && t.pcs == s.pcs && t.drops == s.drops && t.enq == s.enq
  {
    hide DrainStep;
    if a.Drain? { DrainFrame(s); }
  }

  // ---- published positions -------------------------------------------------

  /** A published position stays published. */
  ghost predicate PublishedStays(s: State, t: State) {
    s.claims <= t.claims && forall q: nat :: Published(s, q) ==> Published(t, q)
  }

  /** All positions below `n` have been consumed or published. */
  ghost predicate ReadyUpTo(s: State, n: nat) {
    forall q: nat :: s.freed <= q < n ==> Published(s, q)
  }

  lemma MoveKeepsPublished(s: State, t: State, p: ProducerId)
    requires Moved(s, t, p)
    requires Owning(Pc(t, p)) ==> Owning(Pc(s, p)) && Pc(t, p).pos == Pc(s, p).pos
    ensures PublishedStays(s, t)
  {
    forall q: nat | Published(s, q)
      ensures Published(t, q)
    {}
  }

  lemma FillKeepsPosition(s: State, p: ProducerId)
    requires Owning(Pc(s, p))
    ensures var pc := Pc(FillStep(s, p), p); Owning(pc) ==> pc.pos == Pc(s, p).pos
  {
  }

  lemma LoopOwnsNothing(s: State, p: ProducerId, spurious: bool)
    requires !Pc(s, p).Idle? && !Owning(Pc(s, p))
    requires Pc(s, p).TryClaim? ==> spurious || s.enq != Pc(s, p).pos
    ensures !Owning(Pc(LoopStep(s, p, spurious), p))
  {
  }

  lemma ClaimKeepsPublished(s: State, p: ProducerId)
    requires Inv(s) && Pc(s, p).TryClaim? && s.enq == Pc(s, p).pos
    ensures PublishedStays(s, LoopStep(s, p, false))
  {
    var t := LoopStep(s, p, false);
    forall q: nat | Published(s, q)
      ensures Published(t, q)
    {}
  }

  lemma LogKeepsPublished(s: State, p: ProducerId, rec: Record)
    ensures PublishedStays(s, LogStep(s, p, rec))
  {
    var t := LogStep(s, p, rec);
    forall q: nat | Published(s, q)
      ensures Published(t, q)
    {}
  }

  lemma ProducerKeepsPublished(s: State, p: ProducerId, spurious: bool)
    requires Inv(s)
    ensures PublishedStays(s, ProducerStep(s, p, spurious))
  {
    hide LoopStep, FillStep;
    if Owning(Pc(s, p)) {
      FillMoves(s, p);
      FillKeepsPosition(s, p);
      MoveKeepsPublished(s, FillStep(s, p), p);
    } else if Pc(s, p).TryClaim? && s.enq == Pc(s, p).pos && !spurious {
      ClaimKeepsPublished(s, p);
    } else if !Pc(s, p).Idle? {
      LoopMoves(s, p, spurious);
      LoopOwnsNothing(s, p, spurious);
      MoveKeepsPublished(s, LoopStep(s, p, spurious), p);
    }
  }

  lemma StepKeepsPublished(s: State, a: Action)
    requires Inv(s)
    ensures PublishedStays(s, Step(s, a))
  {
    match a
    case StartLog(p, rec) => LogKeepsPublished(s, p, rec);
    case Producer(p, spurious) => ProducerKeepsPublished(s, p, spurious);
    case _ =>
      QuietStep(s, a);
      MoveKeepsPublished(s, Step(s, a), 0);
  }

  // ---- counting calls ----------------------------------------------------

  function UndecidedSet(pcs: map<ProducerId, ProducerPc>): set<ProducerId> {
    set p | p in pcs && Undecided(pcs[p])
  }

  function DroppingSet(pcs: map<ProducerId, ProducerPc>): set<ProducerId> {
    set p | p in pcs && pcs[p].CountDrop?
  }

  /** Every call that passed the filter has claimed a position, was counted as
      dropped, or is still undecided; `dropped_` is the drop count as a word. */
  ghost predicate CountInv(s: State) {
    && |s.callers| == |s.claims| + s.drops + |UndecidedSet(s.pcs)|
    && s.rejected == s.drops + |DroppingSet(s.pcs)|
    && s.dropped == s.drops % TWO64
  }

  function One(b: bool): nat {
    if b then 1 else 0
  }

  lemma MoveUndecided(pcs: map<ProducerId, ProducerPc>, p: ProducerId, pc: ProducerPc)
    ensures |UndecidedSet(pcs[p := pc])| ==
            |UndecidedSet(pcs)| - One(p in pcs && Undecided(pcs[p])) + One(Undecided(pc))
  {
    Toggled(UndecidedSet(pcs), UndecidedSet(pcs[p := pc]), p);
  }

  lemma MoveDropping(pcs: map<ProducerId, ProducerPc>, p: ProducerId, pc: ProducerPc)
    ensures |DroppingSet(pcs[p := pc])| ==
            |DroppingSet(pcs)| - One(p in pcs && pcs[p].CountDrop?) + One(pc.CountDrop?)
  {
    Toggled(DroppingSet(pcs), DroppingSet(pcs[p := pc]), p);
  }

  lemma Toggled(a: set<ProducerId>, b: set<ProducerId>, p: ProducerId)
    requires forall o :: o != p ==> (o in a <==> o in b)
    ensures |b| == |a| - One(p in a) + One(p in b)
  {
    var rest := a - {p};
    assert a == if p in a then rest + {p} else rest;
    assert b == if p in b then rest + {p} else rest;
  }

  /** How one access of producer `p` moves the counters. */
  ghost predicate Counted(s: State, t: State, p: ProducerId) {
    && t.callers == s.callers
    && t.pcs == s.pcs[p := Pc(t, p)]
    && One(Undecided(Pc(s, p))) - One(Undecided(Pc(t, p))) == |t.claims| - |s.claims| + t.drops - s.drops
    && One(Pc(t, p).CountDrop?) - One(Pc(s, p).CountDrop?) == t.rejected - s.rejected - (t.drops - s.drops)
    && t.drops == s.drops + One(Pc(s, p).CountDrop?)
    && t.dropped == if Pc(s, p).CountDrop? then Wrap64(s.dropped + 1) else s.dropped
  }

  lemma FillCounts(s: State, p: ProducerId)
    requires Owning(Pc(s, p))
    ensures Counted(s, FillStep(s, p), p)
  {
  }

  lemma LoopCounts(s: State, p: ProducerId, spurious: bool)
    requires !Pc(s, p).Idle? && !Owning(Pc(s, p))
    ensures Counted(s, LoopStep(s, p, spurious), p)
  {
  }

  lemma CountedKeepsCount(s: State, t: State, p: ProducerId)
    requires CountInv(s) && Counted(s, t, p)
    ensures CountInv(t)
  {
    MoveUndecided(s.pcs, p, Pc(t, p));
    MoveDropping(s.pcs, p, Pc(t, p));
    WrapStep(s.drops);
  }

  lemma ProducerKeepsCount(s: State, p: ProducerId, spurious: bool)
    requires CountInv(s)
    ensures CountInv(ProducerStep(s, p, spurious))
  {
    if Owning(Pc(s, p)) {
      FillCounts(s, p);
      CountedKeepsCount(s, FillStep(s, p), p);
    } else if !Pc(s, p).Idle? {
      LoopCounts(s, p, spurious);
      CountedKeepsCount(s, LoopStep(s, p, spurious), p);
    }
  }

  lemma LogKeepsCount(s: State, p: ProducerId, rec: Record)
    requires CountInv(s)
    ensures CountInv(LogStep(s, p, rec))
  {
    var t := LogStep(s, p, rec);
    MoveUndecided(s.pcs, p, Pc(t, p));
    MoveDropping(s.pcs, p, Pc(t, p));
  }

  lemma StepCount(s: State, a: Action)
    requires CountInv(s)
    ensures CountInv(Step(s, a))
  {
    hide DrainStep, ProducerStep;
    match a
    case StartLog(p, rec) => LogKeepsCount(s, p, rec);
    case Producer(p, spurious) => ProducerKeepsCount(s, p, spurious);
    case Drain => DrainFrame(s);
    case _ =>
  }

  lemma InitHistory(cap: nat, minLevel: Level)
    requires cap > 0
    ensures HistoryInv(Init(cap, minLevel)) && CountInv(Init(cap, minLevel))
  {
    assert UndecidedSet(map[]) == {} && DroppingSet(map[]) == {};
  }
}
