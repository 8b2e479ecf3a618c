/** The invariant of the multi-producer ring and its preservation by every step. */
module MpscInvariant {
  import opened Words
  import opened Records
  import opened MpscModel

  /** Past the level filter, neither claimed nor counted as dropped yet. */
  predicate Undecided(pc: ProducerPc) {
    pc.LoadPos? || pc.LoadSeq? || pc.TryClaim? || pc.CountDrop? || pc.Reload?
  }

  /** Position `q` is claimed and its producer has not published it yet. */
  predicate InFlight(s: State, q: nat) {
    && q < |s.claims|
    && var pc := Pc(s, s.claims[q].producer);
       Owning(pc) && pc.pos == q
  }

  predicate Published(s: State, q: nat) {
    q < |s.claims| && !InFlight(s, q)
  }

  ghost predicate RetriesOk(c: Call, pos: nat) {
    c.start <= pos && c.retries <= (pos - c.start) + c.spurious
  }

  /** What an owner has written into its cell so far. */
  ghost predicate WrittenSoFar(pc: ProducerPc, f: Payload)
    requires Owning(pc)
  {
    var r := pc.call.rec;
    && (!pc.WriteTime? ==> f.time == r.time)
    && (pc.WriteMsg? || pc.WriteLen? || pc.Publish? ==> f.level == r.level)
    && (pc.WriteLen? || pc.Publish? ==> TextOf(f.msg, |r.text|) == r.text)
    && (pc.Publish? ==> f.len == |r.text|)
  }

  ghost predicate PcOk(s: State, p: ProducerId, pc: ProducerPc) {
    && (!pc.Idle? ==> pc.call.start <= s.enq && |pc.call.rec.text| <= MAX_MSG_LEN)
    && (pc.LoadPos? ==> pc.call.retries == 0)
    && (!pc.Idle? && !pc.LoadPos? ==> pc.pos <= s.enq && RetriesOk(pc.call, pc.pos))
    && (pc.TryClaim? ==> pc.pos < s.freed + s.cap)
    && (pc.Reload? ==> pc.pos < s.enq)
    && (Owning(pc) ==>
          && s.freed <= pc.pos < s.enq
          && pc.pos < |s.claims|
          && s.claims[pc.pos] == Claim(p, pc.call)
          && CellAt(s, pc.pos).sequence == pc.pos
          && WrittenSoFar(pc, CellAt(s, pc.pos).payload))
  }

  /** The cell encoding: the window `[freed, freed + cap)` of positions meets every
      cell once, and a cell carries its position until that is published. */
  ghost predicate Encoding(s: State) {
    && |s.claims| == s.enq
    && s.freed <= s.enq <= s.freed + s.cap
    && (forall q: nat {:trigger Slot(s.cap, q)} :: s.enq <= q < s.freed + s.cap ==>
          s.cells[Slot(s.cap, q)].sequence == q)
    && (forall q: nat {:trigger Slot(s.cap, q)} :: s.freed <= q < s.enq && !InFlight(s, q) ==>
          var cell := s.cells[Slot(s.cap, q)];
          cell.sequence == q + 1 && Holds(cell.payload, s.claims[q].call.rec))
    && (forall i :: 0 <= i < s.cap ==> |s.cells[i].payload.msg| == MAX_MSG_LEN)
  }

  ghost predicate ProducersOk(s: State) {
    forall p :: p in s.pcs ==> PcOk(s, p, s.pcs[p])
  }

  predicate Reading(d: DrainPc) {
    d.ReadTime? || d.ReadLevel? || d.ReadLen? || d.Emit?
  }

  ghost predicate DrainOk(s: State) {
    var d := s.drain;
    && (Reading(d) || d.Advance? || d.Free? ==> d.at == s.freed < s.enq && Published(s, d.at))
    && (d.ReadLevel? || d.ReadLen? || d.Emit? ==> d.time == s.claims[d.at].call.rec.time)
    && (d.ReadLen? || d.Emit? ==> d.level == s.claims[d.at].call.rec.level)
    && (d.Emit? ==> d.len == |s.claims[d.at].call.rec.text|)
    && (d.LoadCell? ==> d.at == s.deq)
    && s.deq == (if d.Free? then s.freed + 1 else s.freed)
    && |s.sink| == (if d.Free? || d.Advance? then s.freed + 1 else s.freed)
  }

  ghost predicate SinkOk(s: State) {
    && |s.sink| <= |s.claims|
    && forall i :: 0 <= i < |s.sink| ==> s.sink[i] == s.claims[i].call.rec
  }

  ghost predicate FlushOk(s: State) {
    match s.flush
    case NotFlushing => true
    case Polling(b) => b <= s.enq
    case SawDequeue(b, d) => b <= s.enq && d <= s.deq
    case SawEnqueue(b, e) => b <= e <= s.enq
    case Flushed(b) => b <= s.deq
  }

  ghost predicate Inv(s: State) {
    && s.cap >= 2
    && Encoding(s)
    && ProducersOk(s)
    && DrainOk(s)
    && SinkOk(s)
    && FlushOk(s)
  }

  // ---- initial state -----------------------------------------------------

  lemma InitInv(cap: nat, minLevel: Level)
    requires cap >= 2
    ensures Inv(Init(cap, minLevel))
  {
    var s := Init(cap, minLevel);
    forall q: nat | s.enq <= q < s.freed + s.cap
      ensures CellAt(s, q).sequence == q
    {
      assert Slot(cap, q) == q;
    }
  }

  /** Nothing in the invariant depends on the counters, the level filter or the
      running flag. */
  lemma SameRing(s: State, t: State)
    requires Inv(s) && FlushOk(t)
    requires t == s.(flush := t.flush, minLevel := t.minLevel, running := t.running, filtered := t.filtered,
                     callers := t.callers, rejected := t.rejected, dropped := t.dropped, drops := t.drops)
    ensures Inv(t)
  {
    forall q: nat | q < |s.claims|
      ensures InFlight(t, q) == InFlight(s, q)
    {}
    assert ProducersOk(t) by {
      forall p | p in s.pcs ensures PcOk(t, p, s.pcs[p]) {}
    }
    assert Encoding(t);
  }

  // ---- producers ---------------------------------------------------------

  /** The drain thread's, the sink's and the flush's parts of the invariant depend on
      the producers only through what is claimed and what is published. */
  lemma OthersOk(s: State, t: State)
    requires Inv(s) && Encoding(t) && ProducersOk(t)
    requires t.cap == s.cap && t.deq == s.deq && t.freed == s.freed
    requires t.drain == s.drain && t.sink == s.sink && t.flush == s.flush
    requires s.claims <= t.claims && forall q: nat :: Published(s, q) ==> Published(t, q)
    ensures Inv(t)
  {
    hide Encoding, ProducersOk;
    assert |s.claims| == s.enq && |t.claims| == t.enq by { SizesOf(s); SizesOf(t); }
  }

  lemma SizesOf(s: State)
    requires Encoding(s)
    ensures |s.claims| == s.enq
  {
  }

  /** A producer that owns nothing before or after changes nothing that the
      cells or the other threads depend on. */
  lemma MovePc(s: State, p: ProducerId, pc: ProducerPc)
    requires Inv(s) && !Owning(Pc(s, p)) && !Owning(pc) && PcOk(s, p, pc)
    ensures Inv(At(s, p, pc))
  {
    var t := At(s, p, pc);
    forall q: nat | q < |s.claims|
      ensures InFlight(t, q) == InFlight(s, q)
    {}
    assert ProducersOk(t);
    assert Encoding(t);
  }

  /** What a load of a cell's sequence number says about the position. The pairs
      of branches are exhaustive, so each direction is an equivalence. */
  lemma LoadedSequence(s: State, pos: nat)
    requires Inv(s) && Bounded(s) && pos <= s.enq
    ensures var diff := Diff(CellAt(s, pos).sequence, pos);
            && (diff == 0 <==> s.freed <= pos < s.freed + s.cap && !Published(s, pos))
            && (diff < 0 <==> pos == s.enq == s.freed + s.cap)
            && (diff > 0 ==> pos < s.enq)
  {
    var q := WindowCovers(s.cap, s.freed, pos);
    assert CellAt(s, q) == CellAt(s, pos);
    if q < s.enq && InFlight(s, q) {
      assert s.claims[q].producer in s.pcs;
    }
    assert CellAt(s, q).sequence == if Published(s, q) then q + 1 else q;
  }

  lemma LoadSeqMoves(s: State, p: ProducerId)
    requires Inv(s) && Bounded(s) && Pc(s, p).LoadSeq?
    ensures var t := ProducerStep(s, p, false);
            && p in t.pcs && !Owning(t.pcs[p]) && PcOk(s, p, t.pcs[p])
            && t == At(s, p, t.pcs[p]).(rejected := t.rejected)
  {
    LoadedSequence(s, Pc(s, p).pos);
  }

  lemma LoadSeqInv(s: State, p: ProducerId)
    requires Inv(s) && Bounded(s) && Pc(s, p).LoadSeq?
    ensures Inv(ProducerStep(s, p, false))
  {
    hide ProducerStep;
    var t := ProducerStep(s, p, false);
    LoadSeqMoves(s, p);
    MovePc(s, p, t.pcs[p]);
    SameRing(At(s, p, t.pcs[p]), t);
  }

  lemma ClaimProducers(s: State, p: ProducerId, t: State)
    requires Inv(s) && Bounded(t)
    requires Pc(s, p).TryClaim? && s.enq == Pc(s, p).pos && t == ProducerStep(s, p, false)
    ensures ProducersOk(t)
  {
    assert Slot(s.cap, s.enq) < s.cap;
    forall o | o in t.pcs
      ensures PcOk(t, o, t.pcs[o])
    {
      assert o != p ==> t.pcs[o] == s.pcs[o];
    }
  }

  /** A successful claim takes the cell at the top of the window. */
  lemma ClaimTop(s: State, p: ProducerId, t: State)
    requires Inv(s) && Bounded(t)
    requires Pc(s, p).TryClaim? && s.enq == Pc(s, p).pos
    requires t == ProducerStep(s, p, false)
    ensures Encoding(t) && ProducersOk(t)
    ensures forall q: nat | q < |s.claims| :: InFlight(t, q) == InFlight(s, q)
  {
    ClaimProducers(s, p, t);
    forall q: nat | q < |s.claims|
      ensures InFlight(t, q) == InFlight(s, q)
    {}
    assert InFlight(t, s.enq);
  }

  lemma ClaimInv(s: State, p: ProducerId, spurious: bool)
    requires Inv(s) && Pc(s, p).TryClaim? && Bounded(ProducerStep(s, p, spurious))
    ensures Inv(ProducerStep(s, p, spurious))
  {
    var t := ProducerStep(s, p, spurious);
    if s.enq == Pc(s, p).pos && !spurious {
      ClaimTop(s, p, t);
    } else {
      MovePc(s, p, t.pcs[p]);
    }
  }

  /** An owner that writes its cell's payload disturbs no other cell. */
  lemma WritePayload(s: State, p: ProducerId, pc: ProducerPc, f: Payload)
    requires Inv(s)
    requires Owning(Pc(s, p)) && Owning(pc) && pc.call == Pc(s, p).call && pc.pos == Pc(s, p).pos
    requires WrittenSoFar(pc, f) && |f.msg| == MAX_MSG_LEN
    ensures Inv(At(WithPayload(s, pc.pos, f), p, pc))
  {
    var t := At(WithPayload(s, pc.pos, f), p, pc);
    forall q: nat | q < |s.claims|
      ensures InFlight(t, q) == InFlight(s, q)
    {}
    WritePayloadProducers(s, p, pc, f);
    WritePayloadEncoding(s, p, pc, f, t);
    OthersOk(s, t);
  }

  lemma WritePayloadEncoding(s: State, p: ProducerId, pc: ProducerPc, f: Payload, t: State)
    requires Inv(s) && Owning(Pc(s, p)) && Owning(pc) && pc.pos == Pc(s, p).pos && |f.msg| == MAX_MSG_LEN
    requires t == At(WithPayload(s, pc.pos, f), p, pc)
    requires forall q: nat :: q < |s.claims| ==> InFlight(t, q) == InFlight(s, q)
    ensures Encoding(t)
  {
    hide DrainOk;
    WindowDistinct(s.cap, s.freed, pc.pos);
    assert InFlight(s, pc.pos);
  }

  lemma WritePayloadProducers(s: State, p: ProducerId, pc: ProducerPc, f: Payload)
    requires Inv(s)
    requires Owning(Pc(s, p)) && Owning(pc) && pc.call == Pc(s, p).call && pc.pos == Pc(s, p).pos
    requires WrittenSoFar(pc, f)
    ensures ProducersOk(At(WithPayload(s, pc.pos, f), p, pc))
  {
    var t := At(WithPayload(s, pc.pos, f), p, pc);
    WindowDistinct(s.cap, s.freed, pc.pos);
    forall o | o in t.pcs
      ensures PcOk(t, o, t.pcs[o])
    {
      if o != p && Owning(s.pcs[o]) { assert s.pcs[o].pos != pc.pos; }
    }
  }

  lemma WriteInv(s: State, p: ProducerId)
    requires Inv(s)
    requires Owning(Pc(s, p)) && !Pc(s, p).Publish?
    ensures Inv(ProducerStep(s, p, false))
  {
    var pos := Pc(s, p).pos;
    assert Slot(s.cap, pos) < s.cap;
    var t := ProducerStep(s, p, false);
    WritePayload(s, p, t.pcs[p], CellAt(t, pos).payload);
  }

  lemma PublishProducers(s: State, p: ProducerId)
    requires Inv(s) && Pc(s, p).Publish?
    ensures ProducersOk(FillStep(s, p))
  {
    var t := FillStep(s, p);
    WindowDistinct(s.cap, s.freed, Pc(s, p).pos);
    forall o | o in t.pcs
      ensures PcOk(t, o, t.pcs[o])
    {
      if o != p && Owning(s.pcs[o]) { assert s.pcs[o].pos != Pc(s, p).pos; }
    }
  }

  lemma PublishEncoding(s: State, p: ProducerId, t: State)
    requires Inv(s) && Bounded(s) && Pc(s, p).Publish? && t == FillStep(s, p)
    requires forall q: nat :: q < |s.claims| ==> InFlight(t, q) == (InFlight(s, q) && q != Pc(s, p).pos)
    ensures Encoding(t)
  {
    WindowDistinct(s.cap, s.freed, Pc(s, p).pos);
  }

  lemma PublishInv(s: State, p: ProducerId)
    requires Inv(s) && Bounded(s) && Pc(s, p).Publish?
    ensures Inv(FillStep(s, p))
  {
    var pos := Pc(s, p).pos;
    var t := FillStep(s, p);
    forall q: nat | q < |s.claims|
      ensures InFlight(t, q) == (InFlight(s, q) && q != pos)
    {}
    PublishProducers(s, p);
    PublishEncoding(s, p, t);
    OthersOk(s, t);
  }

  lemma LoadEnqueueInv(s: State, p: ProducerId)
    requires Inv(s) && (Pc(s, p).LoadPos? || Pc(s, p).Reload?)
    ensures Inv(ProducerStep(s, p, false))
  {
    MovePc(s, p, ProducerStep(s, p, false).pcs[p]);
  }

  lemma CountDropInv(s: State, p: ProducerId)
    requires Inv(s) && Pc(s, p).CountDrop?
    ensures Inv(ProducerStep(s, p, false))
  {
    MovePc(s, p, Idle);
    SameRing(At(s, p, Idle), ProducerStep(s, p, false));
  }

  lemma ProducerInv(s: State, p: ProducerId, spurious: bool)
    requires Inv(s) && Bounded(ProducerStep(s, p, spurious))
    ensures Inv(ProducerStep(s, p, spurious))
  {
    match Pc(s, p)
    case Idle =>
    case LoadPos(_) => LoadEnqueueInv(s, p);
    case LoadSeq(_, _) => LoadSeqInv(s, p);
    case TryClaim(_, _) => ClaimInv(s, p, spurious);
    case CountDrop(_, _) => CountDropInv(s, p);
    case Reload(_, _) => LoadEnqueueInv(s, p);
    case Publish(_, _) => PublishInv(s, p);
    case _ => WriteInv(s, p);
  }

  lemma AdmitInv(s: State, p: ProducerId, rec: Record, t: State)
    requires Inv(s) && Pc(s, p) == Idle && |rec.text| <= MAX_MSG_LEN
    requires t == At(s.(callers := s.callers + [p]), p, LoadPos(Call(|s.callers|, s.enq, rec, 0, 0)))
    ensures Inv(t)
  {
    MovePc(s, p, LoadPos(Call(|s.callers|, s.enq, rec, 0, 0)));
    SameRing(At(s, p, LoadPos(Call(|s.callers|, s.enq, rec, 0, 0))), t);
  }

  lemma LogInv(s: State, p: ProducerId, rec: Record)
    requires Inv(s)
    ensures Inv(LogStep(s, p, rec))
  {
    var t := LogStep(s, p, rec);
    if Pc(s, p) == Idle && |rec.text| <= MAX_MSG_LEN && rec.level >= s.minLevel {
      AdmitInv(s, p, rec, t);
    } else {
      SameRing(s, t);
    }
  }

  // ---- drain and flush ---------------------------------------------------

  lemma FreeProducers(s: State, t: State)
    requires Inv(s) && Bounded(s) && s.drain.Free? && t == DrainStep(s)
    ensures ProducersOk(t)
  {
    WindowDistinct(s.cap, s.freed, s.drain.at);
    forall p | p in s.pcs
      ensures PcOk(t, p, s.pcs[p])
    {
      if Owning(s.pcs[p]) { assert InFlight(s, s.pcs[p].pos); }
    }
  }

  lemma FreeEncoding(s: State, t: State)
    requires Inv(s) && Bounded(s) && s.drain.Free? && t == DrainStep(s)
    requires forall q: nat :: q < |s.claims| ==> InFlight(t, q) == InFlight(s, q)
    ensures Encoding(t)
  {
    WindowDistinct(s.cap, s.freed, s.drain.at);
    assert Slot(s.cap, s.drain.at + s.cap) == Slot(s.cap, s.drain.at);
  }

  lemma FreeInv(s: State)
    requires Inv(s) && Bounded(s) && s.drain.Free?
    ensures Inv(DrainStep(s))
  {
    var t := DrainStep(s);
    forall q: nat | q < |s.claims|
      ensures InFlight(t, q) == InFlight(s, q)
    {}
    FreeProducers(s, t);
    FreeEncoding(s, t);
    hide Encoding, ProducersOk;
    assert t == s.(cells := t.cells, freed := s.freed + 1, drain := LoadDequeue);
  }

  /** The drain thread's loads, its emit and its advance leave the cells alone. */
  lemma DrainKeepsRing(s: State, t: State)
    requires Inv(s) && t == s.(drain := t.drain, sink := t.sink, deq := t.deq)
    ensures Encoding(t) && ProducersOk(t)
    ensures forall q: nat :: Published(t, q) == Published(s, q)
  {
    forall q: nat
      ensures InFlight(t, q) == InFlight(s, q)
    {}
    forall p | p in s.pcs
      ensures PcOk(t, p, s.pcs[p])
    {}
  }

  /** The four payload reads of a published cell. */
  lemma DrainReadInv(s: State)
    requires Inv(s) && Reading(s.drain)
    ensures Inv(DrainStep(s))
  {
    DrainKeepsRing(s, DrainStep(s));
    assert Slot(s.cap, s.drain.at) < s.cap;
    assert Holds(CellAt(s, s.drain.at).payload, s.claims[s.drain.at].call.rec);
  }

  lemma DrainLookInv(s: State)
    requires Inv(s) && Bounded(s) && s.drain.LoadCell?
    ensures Inv(DrainStep(s))
  {
    DrainKeepsRing(s, DrainStep(s));
    CellToRead(s);
  }

  lemma DrainInv(s: State)
    requires Inv(s) && Bounded(s)
    ensures Inv(DrainStep(s))
  {
    if s.drain.Free? {
      FreeInv(s);
    } else if Reading(s.drain) {
      DrainReadInv(s);
    } else if s.drain.LoadCell? {
      DrainLookInv(s);
    } else {
      DrainKeepsRing(s, DrainStep(s));
    }
  }

  /** The drain thread's test succeeds exactly when the next position is published. */
  lemma CellToRead(s: State)
    requires Inv(s) && Bounded(s) && s.drain.LoadCell?
    ensures Diff(CellAt(s, s.drain.at).sequence, Wrap64(s.drain.at + 1)) == 0 <==> Published(s, s.drain.at)
  {
    LoadedSequence(s, s.drain.at);
    assert Slot(s.cap, s.drain.at) < s.cap;
    if s.freed < s.enq && InFlight(s, s.freed) {
      assert s.claims[s.freed].producer in s.pcs;
    }
  }

  lemma FlushStepOk(s: State, dequeueFirst: bool)
    requires DrainOk(s) && FlushOk(s) && s.freed <= s.enq
    ensures var t := FlushStep(s, dequeueFirst); FlushOk(t) && t == s.(flush := t.flush)
  {
  }

  lemma FlushInv(s: State, dequeueFirst: bool)
    requires Inv(s)
    ensures Inv(FlushStep(s, dequeueFirst))
  {
    hide FlushStep;
    FlushStepOk(s, dequeueFirst);
    SameRing(s, FlushStep(s, dequeueFirst));
  }

  // ---- every run ---------------------------------------------------------

  lemma StepInv(s: State, a: Action)
    requires Inv(s) && Bounded(Step(s, a))
    ensures Inv(Step(s, a))
  {
    match a
    case StartLog(p, rec) => LogInv(s, p, rec);
    case Producer(p, spurious) => ProducerInv(s, p, spurious);
    case Drain => DrainInv(s);
    case FlushLoad(dequeueFirst) => FlushInv(s, dequeueFirst);
    case _ => SameRing(s, Step(s, a));
  }

  lemma {:induction false} ExecInv(s: State, schedule: seq<Action>)
    requires Inv(s) && Bounded(Exec(s, schedule))
    ensures Inv(Exec(s, schedule))
  {
    if schedule != [] {
      var front := schedule[..|schedule| - 1];
      StepBounded(Exec(s, front), schedule[|schedule| - 1]);
      ExecInv(s, front);
      StepInv(Exec(s, front), schedule[|schedule| - 1]);
    }
  }

  /** Claims only accumulate, so a bounded state is reached through bounded ones. */
  lemma StepBounded(s: State, a: Action)
    requires Bounded(Step(s, a))
    ensures Bounded(s)
  {
    ClaimsGrow(s, a);
  }

  lemma ClaimsGrow(s: State, a: Action)
    ensures s.claims <= Step(s, a).claims && Step(s, a).cap == s.cap
  {
    match a
    case Producer(p, spurious) =>
      if Pc(s, p).TryClaim? && s.enq == Pc(s, p).pos && !spurious {
        assert Step(s, a).claims == s.claims + [Claim(p, Pc(s, p).call)];
      } else {
        assert Step(s, a).claims == s.claims;
      }
    case _ =>
  }
}
