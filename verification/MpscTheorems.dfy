/** What every run of the multi-producer ring guarantees. */
module MpscTheorems {
  import opened Words
  import opened Records
  import opened MpscModel
  import opened MpscInvariant
  import opened MpscHistory

  /** `s` is the state after some schedule of a ring with some initial level. */
  ghost predicate Reachable(s: State) {
    exists minLevel: Level, schedule: seq<Action> :: s == Exec(Init(s.cap, minLevel), schedule)
  }

  /** A run of a ring whose capacity the cell encoding supports. */
  ghost predicate Run(s: State) {
    Reachable(s) && s.cap >= 2 && Bounded(s)
  }

  lemma {:induction false} ExecFacts(s: State, schedule: seq<Action>)
    requires Inv(s) && HistoryInv(s) && CountInv(s) && Bounded(Exec(s, schedule))
    ensures var t := Exec(s, schedule); Inv(t) && HistoryInv(t) && CountInv(t)
  {
    if schedule != [] {
      var front, last := schedule[..|schedule| - 1], schedule[|schedule| - 1];
      StepBounded(Exec(s, front), last);
      ExecFacts(s, front);
      StepInv(Exec(s, front), last);
      StepHistory(Exec(s, front), last);
      StepCount(Exec(s, front), last);
    }
  }

  lemma RunFacts(s: State)
    requires Run(s)
    ensures Inv(s) && HistoryInv(s) && CountInv(s)
  {
    var minLevel: Level, schedule :| s == Exec(Init(s.cap, minLevel), schedule);
    InitInv(s.cap, minLevel);
    InitHistory(s.cap, minLevel);
    ExecFacts(Init(s.cap, minLevel), schedule);
  }

  lemma RunInv(s: State)
    requires Run(s)
    ensures Inv(s)
  {
    RunFacts(s);
  }

  /** Schedules compose. */
  lemma {:induction false} ExecAppend(s: State, first: seq<Action>, second: seq<Action>)
    ensures Exec(s, first + second) == Exec(Exec(s, first), second)
    decreases second
  {
    if second == [] {
      assert first + second == first;
    } else {
      var front := second[..|second| - 1];
      assert (first + second)[..|first + second| - 1] == first + front;
      ExecAppend(s, first, front);
    }
  }

  lemma ExecOne(s: State, a: Action)
    ensures Exec(s, [a]) == Step(s, a)
  {
    assert [a][..0] == [];
  }

  lemma ExecFirst(s: State, schedule: seq<Action>)
    requires schedule != []
    ensures Exec(s, schedule) == Exec(Step(s, schedule[0]), schedule[1..])
  {
    assert schedule == [schedule[0]] + schedule[1..];
    ExecAppend(s, [schedule[0]], schedule[1..]);
    ExecOne(s, schedule[0]);
  }

  lemma {:induction false} ExecCap(s: State, schedule: seq<Action>)
    ensures Exec(s, schedule).cap == s.cap && s.claims <= Exec(s, schedule).claims
  {
    if schedule != [] {
      ExecCap(s, schedule[..|schedule| - 1]);
      ClaimsGrow(Exec(s, schedule[..|schedule| - 1]), schedule[|schedule| - 1]);
    }
  }

  lemma ReachableExec(s: State, schedule: seq<Action>)
    requires Reachable(s)
    ensures Reachable(Exec(s, schedule))
  {
    var minLevel: Level, before :| s == Exec(Init(s.cap, minLevel), before);
    ExecAppend(Init(s.cap, minLevel), before, schedule);
    ExecCap(s, schedule);
    assert Exec(s, schedule) == Exec(Init(s.cap, minLevel), before + schedule);
  }

  // ---- the cell encoding -------------------------------------------------

  /** In every reachable state at most one lap of positions is claimed and not yet
      freed, and a cell's sequence number tells a published position from one
      that is free or still being filled. */
  lemma CellEncoding(s: State, q: nat)
    requires Run(s)
    ensures s.freed <= s.enq <= s.freed + s.cap
    ensures s.freed <= q < s.freed + s.cap ==>
              CellAt(s, q).sequence == if Published(s, q) then q + 1 else q
  {
    RunFacts(s);
    if s.freed <= q < s.enq && InFlight(s, q) {
      assert s.claims[q].producer in s.pcs;
    }
  }

  // ---- exclusive access --------------------------------------------------

  /** No two producers own the same cell, and none owns the cell that the drain
      thread is reading. */
  ghost predicate Exclusive(s: State) {
    && (forall p, o :: p in s.pcs && o in s.pcs && p != o && Owning(s.pcs[p]) && Owning(s.pcs[o]) ==>
          Slot(s.cap, s.pcs[p].pos) != Slot(s.cap, s.pcs[o].pos))
    && (forall p :: p in s.pcs && Owning(s.pcs[p]) && Reading(s.drain) ==>
          Slot(s.cap, s.pcs[p].pos) != Slot(s.cap, s.drain.at))
  }

  lemma ExclusiveAccess(s: State)
    requires Run(s)
    ensures Exclusive(s)
  {
    RunFacts(s);
    forall p | p in s.pcs && Owning(s.pcs[p])
      ensures Reading(s.drain) ==> Slot(s.cap, s.pcs[p].pos) != Slot(s.cap, s.drain.at)
      ensures forall o :: o in s.pcs && p != o && Owning(s.pcs[o]) ==>
                Slot(s.cap, s.pcs[p].pos) != Slot(s.cap, s.pcs[o].pos)
    {
      WindowDistinct(s.cap, s.freed, s.pcs[p].pos);
      assert InFlight(s, s.pcs[p].pos);
    }
  }

  // ---- delivery ----------------------------------------------------------

  /** The records of the first `n` claims, in claim order. */
  function Claimed(s: State, n: nat): (r: seq<Record>)
    requires n <= |s.claims|
  {
    seq(n, i requires 0 <= i < n => s.claims[i].call.rec)
  }

  ghost predicate InClaimOrder(s: State) {
    |s.sink| <= |s.claims| && s.sink == Claimed(s, |s.sink|)
  }

  /** The sink holds exactly the records of the first claims, in claim order:
      nothing torn, lost, repeated or reordered. */
  lemma SinkInClaimOrder(s: State)
    requires Run(s)
    ensures InClaimOrder(s)
  {
    RunFacts(s);
  }

  /** Of two accepted calls by one producer the earlier one is logged earlier. */
  lemma PerProducerFifo(s: State, i: nat, j: nat)
    requires Run(s) && i < |s.claims| && j < |s.claims|
    requires s.claims[i].producer == s.claims[j].producer
    ensures i < j <==> s.claims[i].call.id < s.claims[j].call.id
  {
    RunFacts(s);
  }

  /** No call is accepted twice, so none is logged twice. */
  lemma AcceptedOnce(s: State, i: nat, j: nat)
    requires Run(s) && i < |s.claims| && j < |s.claims|
    requires s.claims[i].call.id == s.claims[j].call.id
    ensures i == j
  {
    RunFacts(s);
    assert CalledBy(s, s.claims[i].call, s.claims[i].producer);
    assert CalledBy(s, s.claims[j].call, s.claims[j].producer);
  }

  /** Real-time order: whatever is claimed at some moment stays ahead of every
      call that begins later (its id is not in use yet at that moment). */
  lemma RealTimeOrder(s: State, schedule: seq<Action>, a: nat, b: nat)
    requires Run(s) && Bounded(Exec(s, schedule))
    requires a < |s.claims| && b < |Exec(s, schedule).claims|
    requires Exec(s, schedule).claims[b].call.id >= |s.callers|
    ensures a < b && Exec(s, schedule).claims[a] == s.claims[a]
  {
    RunFacts(s);
    ExecCap(s, schedule);
    assert b < |s.claims| ==> CalledBy(s, s.claims[b].call, s.claims[b].producer);
  }

  // ---- drops -------------------------------------------------------------

  /** A call takes the drop branch exactly when, at that load of the sequence
      number, its position is the current enqueue position and a whole lap of
      claimed cells has not been freed, however old the position is. */
  lemma DropIffFull(s: State, p: ProducerId, spurious: bool)
    requires Run(s) && Pc(s, p).LoadSeq?
    ensures var t := Step(s, Producer(p, spurious));
            Pc(t, p).CountDrop? <==> Pc(s, p).pos == s.enq == s.freed + s.cap
  {
    RunFacts(s);
    LoadedSequence(s, Pc(s, p).pos);
  }

  // ---- conservation ------------------------------------------------------

  /** Every call past the level filter is logged, claimed and still in the ring,
      counted as dropped, or undecided. */
  lemma Conservation(s: State)
    requires Run(s)
    ensures |s.callers| == |s.sink| + (s.enq - |s.sink|) + s.drops + |UndecidedSet(s.pcs)|
    ensures |s.sink| <= s.enq && s.dropped == s.drops % TWO64
  {
    RunFacts(s);
  }

  /** A filtered call changes nothing but its own count. */
  lemma FilteredCall(s: State, p: ProducerId, rec: Record)
    requires Pc(s, p).Idle? && |rec.text| <= MAX_MSG_LEN
    ensures var t := Step(s, StartLog(p, rec));
            if rec.level < s.minLevel then t == s.(filtered := s.filtered + 1)
            else t.callers == s.callers + [p] && t.filtered == s.filtered
  {
  }

  /** The action begins a call of `Log` ... */
  predicate Begins(s: State, a: Action) {
    a.StartLog? && Pc(s, a.p).Idle? && |a.rec.text| <= MAX_MSG_LEN
  }

  /** ... and one that the level filter turns away. */
  predicate Filters(s: State, a: Action) {
    Begins(s, a) && a.rec.level < s.minLevel
  }

  /** How many calls of `Log` a schedule begins. */
  function Begun(s: State, schedule: seq<Action>): nat {
    if schedule == [] then 0
    else
      var front, last := schedule[..|schedule| - 1], schedule[|schedule| - 1];
      Begun(s, front) + One(Begins(Exec(s, front), last))
  }

  /** The schedule with the calls left out that the level filter turned away. */
  function Unfiltered(s: State, schedule: seq<Action>): seq<Action> {
    if schedule == [] then []
    else
      var front, last := schedule[..|schedule| - 1], schedule[|schedule| - 1];
      Unfiltered(s, front) + if Filters(Exec(s, front), last) then [] else [last]
  }

  lemma FillIgnoresFiltered(s: State, p: ProducerId, k: nat)
    requires Owning(Pc(s, p))
    ensures FillStep(s.(filtered := k), p) == FillStep(s, p).(filtered := k)
  {
  }

  lemma LoopIgnoresFiltered(s: State, p: ProducerId, spurious: bool, k: nat)
    requires !Pc(s, p).Idle? && !Owning(Pc(s, p))
    ensures LoopStep(s.(filtered := k), p, spurious) == LoopStep(s, p, spurious).(filtered := k)
  {
  }

  lemma LookIgnoresFiltered(s: State, k: nat)
    requires s.drain.LoadDequeue? || s.drain.LoadCell? || s.drain.CheckRunning? || s.drain.Exited?
    ensures DrainStep(s.(filtered := k)) == DrainStep(s).(filtered := k)
  {
  }

  lemma ReadIgnoresFiltered(s: State, k: nat)
    requires Reading(s.drain)
    ensures DrainStep(s.(filtered := k)) == DrainStep(s).(filtered := k)
  {
  }

  lemma FreeIgnoresFiltered(s: State, k: nat)
    requires s.drain.Advance? || s.drain.Free?
    ensures DrainStep(s.(filtered := k)) == DrainStep(s).(filtered := k)
  {
  }

  lemma ProducerIgnoresFiltered(s: State, p: ProducerId, spurious: bool, k: nat)
    ensures ProducerStep(s.(filtered := k), p, spurious) == ProducerStep(s, p, spurious).(filtered := k)
  {
    if Owning(Pc(s, p)) {
      FillIgnoresFiltered(s, p, k);
    } else if !Pc(s, p).Idle? {
      LoopIgnoresFiltered(s, p, spurious, k);
    }
  }

  lemma DrainIgnoresFiltered(s: State, k: nat)
    ensures DrainStep(s.(filtered := k)) == DrainStep(s).(filtered := k)
  {
    hide DrainStep;
    if Reading(s.drain) {
      ReadIgnoresFiltered(s, k);
    } else if s.drain.Advance? || s.drain.Free? {
      FreeIgnoresFiltered(s, k);
    } else {
      LookIgnoresFiltered(s, k);
    }
  }

  lemma LogIgnoresFiltered(s: State, p: ProducerId, rec: Record, k: nat)
    requires !Filters(s, StartLog(p, rec))
    ensures LogStep(s.(filtered := k), p, rec) == LogStep(s, p, rec).(filtered := k)
  {
  }

  lemma FlushIgnoresFiltered(s: State, dequeueFirst: bool, k: nat)
    ensures FlushStep(s.(filtered := k), dequeueFirst) == FlushStep(s, dequeueFirst).(filtered := k)
  {
  }

  lemma StepIgnoresFiltered(s: State, a: Action, k: nat)
    requires !Filters(s, a)
    ensures Step(s.(filtered := k), a) == Step(s, a).(filtered := k)
  {
    hide DrainStep, ProducerStep, LogStep, FlushStep;
    match a
    case Producer(p, spurious) => ProducerIgnoresFiltered(s, p, spurious, k);
    case Drain => DrainIgnoresFiltered(s, k);
    case StartLog(p, rec) => LogIgnoresFiltered(s, p, rec, k);
    case FlushLoad(dequeueFirst) => FlushIgnoresFiltered(s, dequeueFirst, k);
    case _ =>
  }

  /** Filtered calls touch nothing: leaving all of them out of a schedule leads to the
      same state, but for their count. */
  lemma {:induction false} FilteredCallsInvisible(s: State, schedule: seq<Action>)
    ensures Exec(s, Unfiltered(s, schedule)) == Exec(s, schedule).(filtered := s.filtered)
  {
    if schedule != [] {
      var front, last := schedule[..|schedule| - 1], schedule[|schedule| - 1];
      FilteredCallsInvisible(s, front);
      SkipsFiltered(s, front, last, Exec(s, front));
    }
  }

  lemma SkipsFiltered(s: State, front: seq<Action>, last: Action, t: State)
    requires t == Exec(s, front) && Exec(s, Unfiltered(s, front)) == t.(filtered := s.filtered)
    ensures Exec(s, Unfiltered(s, front) + if Filters(t, last) then [] else [last]) ==
            Step(t, last).(filtered := s.filtered)
  {
    if Filters(t, last) {
      FilteredCall(t, last.p, last.rec);
      assert Unfiltered(s, front) + [] == Unfiltered(s, front);
    } else {
      ExecAppend(s, Unfiltered(s, front), [last]);
      ExecOne(t.(filtered := s.filtered), last);
      StepIgnoresFiltered(t, last, s.filtered);
    }
  }

  lemma StepCountsCalls(s: State, a: Action)
    ensures var t := Step(s, a);
            t.filtered + |t.callers| == s.filtered + |s.callers| + One(Begins(s, a))
  {
    hide DrainStep, ProducerStep;
    match a
    case Producer(p, spurious) => ProducerFrame(s, p, spurious);
    case Drain => DrainFrame(s);
    case _ =>
  }

  lemma {:induction false} CallsCounted(s: State, schedule: seq<Action>)
    ensures var t := Exec(s, schedule);
            t.filtered + |t.callers| == s.filtered + |s.callers| + Begun(s, schedule)
  {
    if schedule != [] {
      CallsCounted(s, schedule[..|schedule| - 1]);
      StepCountsCalls(Exec(s, schedule[..|schedule| - 1]), schedule[|schedule| - 1]);
    }
  }

  /** Every call that a schedule begins is, in the end, filtered, logged, claimed and not
      yet logged, counted as dropped, or undecided. */
  lemma EveryCallAccounted(cap: nat, minLevel: Level, schedule: seq<Action>)
    requires cap >= 2 && Bounded(Exec(Init(cap, minLevel), schedule))
    ensures var t := Exec(Init(cap, minLevel), schedule);
            && |t.sink| <= t.enq
            && Begun(Init(cap, minLevel), schedule) ==
               t.filtered + |t.sink| + (t.enq - |t.sink|) + t.drops + |UndecidedSet(t.pcs)|
  {
    CallsCounted(Init(cap, minLevel), schedule);
    ExecCap(Init(cap, minLevel), schedule);
    Conservation(Exec(Init(cap, minLevel), schedule));
  }

  // ---- the level and the running flag ------------------------------------------

  lemma StepFlags(s: State, a: Action)
    ensures Step(s, a).minLevel == if a.SetLevel? then a.level else s.minLevel
    ensures Step(s, a).running <==> s.running && !a.Stop?
  {
    hide DrainStep, ProducerStep;
    match a
    case Producer(p, spurious) => ProducerFrame(s, p, spurious);
    case Drain => DrainFrame(s);
    case _ =>
  }

  /** A logger runs from its construction until it is stopped, and no longer. */
  lemma {:induction false} RunsUntilStopped(cap: nat, minLevel: Level, schedule: seq<Action>)
    requires cap > 0
    ensures Exec(Init(cap, minLevel), schedule).running <==> Stop !in schedule
    decreases schedule
  {
    if schedule != [] {
      var front, last := schedule[..|schedule| - 1], schedule[|schedule| - 1];
      RunsUntilStopped(cap, minLevel, front);
      StepFlags(Exec(Init(cap, minLevel), front), last);
      assert schedule == front + [last];
    }
  }

  predicate NoSetLevel(schedule: seq<Action>) {
    forall a :: a in schedule ==> !a.SetLevel?
  }

  lemma {:induction false} LevelKept(s: State, schedule: seq<Action>)
    requires NoSetLevel(schedule)
    ensures Exec(s, schedule).minLevel == s.minLevel
  {
    if schedule != [] {
      LevelKept(s, schedule[..|schedule| - 1]);
      StepFlags(Exec(s, schedule[..|schedule| - 1]), schedule[|schedule| - 1]);
    }
  }

  /** The level in force is the one set last, and before any is set the initial one. */
  lemma LevelInForce(cap: nat, minLevel: Level, before: seq<Action>, level: Level, after: seq<Action>)
    requires cap > 0 && NoSetLevel(after)
    ensures Exec(Init(cap, minLevel), before + [SetLevel(level)] + after).minLevel == level
    ensures Exec(Init(cap, minLevel), after).minLevel == minLevel
  {
    var s := Init(cap, minLevel);
    ExecAppend(s, before + [SetLevel(level)], after);
    ExecAppend(s, before, [SetLevel(level)]);
    ExecOne(Exec(s, before), SetLevel(level));
    StepFlags(Exec(s, before), SetLevel(level));
    LevelKept(Exec(s, before + [SetLevel(level)]), after);
    LevelKept(s, after);
  }

  // ---- lock-freedom ------------------------------------------------------

  /** Each retry that is not a spurious failure strictly raises the local position. */
  lemma RetryAdvances(s: State, p: ProducerId, spurious: bool)
    requires Run(s) && (Pc(s, p).TryClaim? || Pc(s, p).Reload?)
    ensures var t := Step(s, Producer(p, spurious));
            Pc(t, p).LoadSeq? ==>
              && Pc(t, p).call.retries == Pc(s, p).call.retries + 1
              && (Pc(t, p).pos > Pc(s, p).pos || Pc(t, p).call.spurious == Pc(s, p).call.spurious + 1)
              && Pc(t, p).pos >= Pc(s, p).pos
  {
    RunFacts(s);
    assert PcOk(s, p, s.pcs[p]);
  }

  /** How many of the claims at positions `[from, to)` are not by `p`. */
  function ClaimsByOthers(claims: seq<Claim>, p: ProducerId, from: nat, to: nat): nat
    requires to <= |claims|
  {
    if to <= from then 0
    else ClaimsByOthers(claims, p, from, to - 1) + One(claims[to - 1].producer != p)
  }

  lemma {:induction false} AllByOthers(claims: seq<Claim>, p: ProducerId, from: nat, to: nat)
    requires from <= to <= |claims|
    requires forall q :: from <= q < to ==> claims[q].producer != p
    ensures ClaimsByOthers(claims, p, from, to) == to - from
  {
    if from < to { AllByOthers(claims, p, from, to - 1); }
  }

  /** While a call is undecided it has retried at most once per claim that another
      producer made since it began, plus once per spurious failure. */
  lemma RetriesBounded(s: State, p: ProducerId)
    requires Run(s) && Undecided(Pc(s, p))
    ensures var c := Pc(s, p).call;
            c.retries <= ClaimsByOthers(s.claims, p, c.start, |s.claims|) + c.spurious
  {
    RunFacts(s);
    assert PcOk(s, p, s.pcs[p]) && PcOrdered(s, p, s.pcs[p]);
    AllByOthers(s.claims, p, Pc(s, p).call.start, |s.claims|);
  }

  /** The same bound for an accepted call: only claims before its own count. */
  lemma AcceptedRetriesBounded(s: State, i: nat)
    requires Run(s) && i < |s.claims|
    ensures var k := s.claims[i];
            k.call.retries <= ClaimsByOthers(s.claims, k.producer, k.call.start, i) + k.call.spurious
  {
    RunFacts(s);
    var k := s.claims[i];
    assert OnlyOthers(s, k.producer, k.call.start, i) && RetriesOk(k.call, i);
    AllByOthers(s.claims, k.producer, k.call.start, i);
  }
}
