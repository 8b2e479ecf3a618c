/** What every run of the single-producer ring guarantees, what it refines, and how
    it shuts down. */
module SpscTheorems {
  import opened Words
  import opened Records
  import opened BoundedFifo
  import opened SpscModel
  import opened SpscInvariant

  /** `s` is the state after some schedule of a ring of a power-of-two capacity. */
  ghost predicate Run(s: State) {
    PowerOfTwo(s.cap) &&
    exists minLevel: Level, schedule: seq<Action> :: s == Exec(Init(s.cap, minLevel), schedule)
  }

  lemma RunInv(s: State)
    requires Run(s)
    ensures Inv(s)
  {
    var minLevel: Level, schedule :| s == Exec(Init(s.cap, minLevel), schedule);
    InitInv(s.cap, minLevel);
    ExecInv(Init(s.cap, minLevel), schedule);
  }

  lemma {:induction false} ExecAppend(s: State, first: seq<Action>, second: seq<Action>)
    ensures Exec(s, first + second) == Exec(Exec(s, first), second)
    decreases second
  {
    if second == [] {
      assert first + second == first;
    } else {
      var front := second[..|second| - 1];
      assert (first + second)[..|first + second| - 1] == first + front;
      ExecAppend(s, first, front);
    }
  }

  lemma {:induction false} ExecGrows(s: State, schedule: seq<Action>)
    ensures Exec(s, schedule).cap == s.cap && s.sink <= Exec(s, schedule).sink
    ensures s.accepted <= Exec(s, schedule).accepted
  {
    if schedule != [] {
      ExecGrows(s, schedule[..|schedule| - 1]);
      StepGrows(Exec(s, schedule[..|schedule| - 1]), schedule[|schedule| - 1]);
    }
  }

  lemma ProducerGrows(s: State)
    ensures var t := ProducerStep(s);
            && t.cap == s.cap && t.sink == s.sink && s.accepted <= t.accepted && t.running == s.running
            && t.flush == s.flush && t.drain == s.drain && t.freed == s.freed && t.tail == s.tail
            && t.minLevel == s.minLevel
  {
  }

  lemma DrainGrows(s: State)
    ensures var t := DrainStep(s);
            && t.cap == s.cap && s.sink <= t.sink && t.accepted == s.accepted && t.running == s.running
            && t.flush == s.flush && t.pc == s.pc && t.head == s.head && t.drops == s.drops && s.freed <= t.freed
            && t.minLevel == s.minLevel
  {
  }

  lemma StepGrows(s: State, a: Action)
    ensures Step(s, a).cap == s.cap && s.sink <= Step(s, a).sink && s.accepted <= Step(s, a).accepted
  {
    hide ProducerStep, DrainStep;
    match a
    case Producer => ProducerGrows(s);
    case Drain => DrainGrows(s);
    case _ =>
  }

  lemma RunExec(s: State, schedule: seq<Action>)
    requires Run(s)
    ensures Run(Exec(s, schedule))
  {
    var minLevel: Level, before :| s == Exec(Init(s.cap, minLevel), before);
    ExecAppend(Init(s.cap, minLevel), before, schedule);
    ExecGrows(s, schedule);
    assert Exec(s, schedule) == Exec(Init(s.cap, minLevel), before + schedule);
  }

  lemma RunStep(s: State, a: Action)
    requires Run(s)
    ensures Run(Step(s, a))
  {
    ExecOne(s, a);
    RunExec(s, [a]);
  }

  lemma ExecOne(s: State, a: Action)
    ensures Exec(s, [a]) == Step(s, a)
  {
    assert [a][..0] == [];
  }

  // ---- the level and the running flag ------------------------------------------

  lemma StepFlags(s: State, a: Action)
    ensures Step(s, a).minLevel == if a.SetLevel? then a.level else s.minLevel
    ensures Step(s, a).running <==> s.running && !a.Stop?
  {
    hide DrainStep, ProducerStep;
    match a
    case Producer => ProducerGrows(s);
    case Drain => DrainGrows(s);
    case _ =>
  }

  /** A logger runs from its construction until it is stopped, and no longer. */
  lemma {:induction false} RunsUntilStopped(cap: nat, minLevel: Level, schedule: seq<Action>)
    requires cap > 0
    ensures Exec(Init(cap, minLevel), schedule).running <==> Stop !in schedule
    decreases schedule
  {
    if schedule != [] {
      var front, last := schedule[..|schedule| - 1], schedule[|schedule| - 1];
      RunsUntilStopped(cap, minLevel, front);
      StepFlags(Exec(Init(cap, minLevel), front), last);
      assert schedule == front + [last];
    }
  }

  predicate NoSetLevel(schedule: seq<Action>) {
    forall a :: a in schedule ==> !a.SetLevel?
  }

  lemma {:induction false} LevelKept(s: State, schedule: seq<Action>)
    requires NoSetLevel(schedule)
    ensures Exec(s, schedule).minLevel == s.minLevel
  {
    if schedule != [] {
      LevelKept(s, schedule[..|schedule| - 1]);
      StepFlags(Exec(s, schedule[..|schedule| - 1]), schedule[|schedule| - 1]);
    }
  }

  /** The level in force is the one set last, and before any is set the initial one. */
  lemma LevelInForce(cap: nat, minLevel: Level, before: seq<Action>, level: Level, after: seq<Action>)
    requires cap > 0 && NoSetLevel(after)
    ensures Exec(Init(cap, minLevel), before + [SetLevel(level)] + after).minLevel == level
    ensures Exec(Init(cap, minLevel), after).minLevel == minLevel
  {
    var s := Init(cap, minLevel);
    ExecAppend(s, before + [SetLevel(level)], after);
    ExecAppend(s, before, [SetLevel(level)]);
    ExecOne(Exec(s, before), SetLevel(level));
    StepFlags(Exec(s, before), SetLevel(level));
    LevelKept(Exec(s, before + [SetLevel(level)]), after);
    LevelKept(s, after);
  }

  // ---- safety ------------------------------------------------------------------

  /** At most `cap` published records occupy the ring, and the two sides compute
      that number exactly from their words, wrapped or not. */
  lemma OccupancyBounded(s: State)
    requires Run(s)
    ensures Minus64(s.head, s.tail) == |s.accepted| - s.freed <= s.cap
  {
    RunInv(s);
    Occupancy(s);
  }

  /** The producer never writes the slot that the drain thread is reading. */
  lemma ExclusiveAccess(s: State)
    requires Run(s) && Writing(s.pc) && Reading(s.drain)
    ensures Masked(s.cap, s.pc.head) != Masked(s.cap, s.drain.at)
  {
    RunInv(s);
    MaskedIsSlot(s, |s.accepted|);
    MaskedIsSlot(s, s.freed);
    WindowDistinct(s.cap, s.freed, |s.accepted|);
  }

  /** The sink is a prefix of the published records: first in, first out, nothing
      torn, lost, repeated or reordered. */
  lemma SinkIsPrefix(s: State)
    requires Run(s)
    ensures s.sink <= s.accepted
  {
    RunInv(s);
  }

  /** The drop branch is taken exactly when, at the load of the tail, `cap` records
      are held, however old the producer's own load of the head is. */
  lemma DropIffFull(s: State)
    requires Run(s) && s.pc.LoadTail?
    ensures Step(s, Producer).pc.CountDrop? <==> |s.accepted| == s.freed + s.cap
  {
    RunInv(s);
    LoadTailInv(s);
  }

  /** Every call past the filter is published, counted as dropped, or under way;
      every published one is logged or still in the ring. */
  lemma Conservation(s: State)
    requires Run(s)
    ensures s.calls == |s.sink| + (|s.accepted| - |s.sink|) + s.drops + if s.pc.Idle? then 0 else 1
    ensures |s.sink| <= |s.accepted| && s.dropped == s.drops % TWO64
  {
    RunInv(s);
  }

  // ---- refinement ----------------------------------------------------------------

  function Abs(s: State): Fifo {
    Fifo(s.cap, s.accepted, s.sink, s.freed, s.rejected)
  }

  /** The publish appends the caller's own record to a queue that is not full, the
      drop branch is a rejection by a full one, and nothing else changes it. */
  lemma ProducerRefines(s: State)
    requires Run(s)
    ensures var t := ProducerStep(s);
            if s.pc.Publish? then
              !Full(Abs(s)) && Abs(t) == Abs(s).(accepted := Abs(s).accepted + [s.pc.rec])
            else if s.pc.LoadTail? && t.pc.CountDrop? then RejectNew(Abs(s), Abs(t))
            else Abs(t) == Abs(s)
  {
    RunInv(s);
    if s.pc.LoadTail? { LoadTailInv(s); }
  }

  /** The drain thread delivers the next published record when it calls the sink,
      releases one place when it frees the slot, and changes nothing else. */
  lemma DrainRefines(s: State)
    requires Run(s)
    ensures var t := DrainStep(s);
            if s.drain.Emit? then Deliver(Abs(s), Abs(t))
            else if s.drain.Advance? then Release(Abs(s), Abs(t))
            else Abs(t) == Abs(s)
  {
    RunInv(s);
    var t := DrainStep(s);
    DrainInv(s);
    if s.drain.Emit? { assert t.sink[|s.sink|] == t.accepted[|s.sink|]; }
  }

  lemma StepRefines(s: State, a: Action)
    requires Run(s)
    ensures FifoNext(Abs(s), Abs(Step(s, a)))
  {
    match a
    case Producer =>
      ProducerRefines(s);
      if s.pc.Publish? { assert Accept(Abs(s), Abs(ProducerStep(s))); }
    case Drain => DrainRefines(s);
    case _ => assert Abs(Step(s, a)) == Abs(s);
  }

  ghost function Trace(s: State, schedule: seq<Action>): seq<Fifo> {
    if schedule == [] then [Abs(s)]
    else Trace(s, schedule[..|schedule| - 1]) + [Abs(Exec(s, schedule))]
  }

  /** Refinement: every run of the ring is, seen as a queue, a run of the bounded
      queue that drops when full. */
  lemma {:induction false} RunRefines(cap: nat, minLevel: Level, schedule: seq<Action>)
    requires PowerOfTwo(cap) && cap > 0
    ensures FifoRun(Trace(Init(cap, minLevel), schedule))
    ensures var trace := Trace(Init(cap, minLevel), schedule);
            trace[|trace| - 1] == Abs(Exec(Init(cap, minLevel), schedule))
    decreases schedule
  {
    var s := Init(cap, minLevel);
    if schedule != [] {
      var front, last := schedule[..|schedule| - 1], schedule[|schedule| - 1];
      RunRefines(cap, minLevel, front);
      ExecGrows(s, front);
      assert Run(Exec(s, front));
      StepRefines(Exec(s, front), last);
    }
  }

  // ---- flush -----------------------------------------------------------------------

  predicate NoLog(schedule: seq<Action>) {
    forall a :: a in schedule ==> !a.StartLog?
  }

  lemma {:induction false} QuietExec(s: State, schedule: seq<Action>)
    requires s.pc.Idle? && NoLog(schedule)
    ensures Exec(s, schedule).pc.Idle? && Exec(s, schedule).accepted == s.accepted
  {
    if schedule != [] {
      QuietExec(s, schedule[..|schedule| - 1]);
    }
  }

  /** When `Flush` has returned, every record published before it was called is in
      the sink, whichever of its loads came first. */
  lemma FlushDelivers(s: State)
    requires Run(s) && s.flush.Flushed?
    ensures s.flush.begin <= |s.sink| <= |s.accepted|
    ensures s.sink[..s.flush.begin] == s.accepted[..s.flush.begin]
  {
    RunInv(s);
  }

  lemma {:induction false} FlushBegan(s: State, schedule: seq<Action>, b: nat)
    requires s.flush == Polling(b) && !(BeginFlush in schedule)
    ensures var f := Exec(s, schedule).flush; !f.NotFlushing? && f.begin == b
  {
    if schedule != [] {
      FlushBegan(s, schedule[..|schedule| - 1], b);
      FlushGoesOn(Exec(s, schedule[..|schedule| - 1]), schedule[|schedule| - 1]);
    }
  }

  /** Flush, then destroy, loses nothing: the producer stops, `Flush` runs and
      returns (`flushing`), and then anything but a new `Log` may happen (`rest`),
      in particular clearing the running flag. */
  lemma FlushThenDestroy(s: State, flushing: seq<Action>, rest: seq<Action>)
    requires Run(s) && s.pc.Idle? && (s.flush.NotFlushing? || s.flush.Flushed?)
    requires NoLog(flushing) && !(BeginFlush in flushing) && NoLog(rest)
    requires Exec(Step(s, BeginFlush), flushing).flush.Flushed?
    ensures var t := Exec(Step(s, BeginFlush), flushing);
            var u := Exec(t, rest);
            u.accepted == s.accepted && t.sink == u.sink == s.accepted
  {
    var b := Step(s, BeginFlush);
    var t := Exec(b, flushing);
    RunStep(s, BeginFlush);
    RunExec(b, flushing);
    RunExec(t, rest);
    QuietExec(b, flushing);
    QuietExec(t, rest);
    FlushBegan(b, flushing, |s.accepted|);
    FlushDelivers(t);
    SinkIsPrefix(t);
    SinkIsPrefix(Exec(t, rest));
    ExecGrows(t, rest);
  }

  // ---- schedules -----------------------------------------------------------------------

  lemma ExecFirst(s: State, schedule: seq<Action>)
    requires schedule != []
    ensures Exec(s, schedule) == Exec(Step(s, schedule[0]), schedule[1..])
  {
    assert schedule == [schedule[0]] + schedule[1..];
    ExecAppend(s, [schedule[0]], schedule[1..]);
    ExecOne(s, schedule[0]);
  }

  function One(b: bool): nat {
    if b then 1 else 0
  }

  function DrainCount(schedule: seq<Action>): nat {
    if schedule == [] then 0 else One(schedule[0].Drain?) + DrainCount(schedule[1..])
  }

  function FlushLoads(schedule: seq<Action>): nat {
    if schedule == [] then 0 else One(schedule[0].FlushLoad?) + FlushLoads(schedule[1..])
  }

  /** A running logger is not stopped. */
  predicate Unstopped(s: State, schedule: seq<Action>) {
    s.running ==> Stop !in schedule
  }

  predicate Leaving(s: State) {
    s.drain.Exited? || (s.drain.CheckRunning? && !s.running)
  }

  predicate CaughtUp(s: State) {
    s.freed == |s.accepted|
  }

  /** How many of its own steps the drain thread is from having freed `n` records. */
  function Distance(s: State, n: nat): int {
    7 * (n - s.freed) +
    match s.drain
    case CheckRunning => 1
    case OwnTail => 0
    case SeeHead(_) => -1
    case ReadTime(_) => -2
    case ReadLevel(_, _) => -3
    case ReadLen(_, _, _) => -4
    case Emit(_, _, _, _) => -5
    case Advance(_) => -6
    case Exited => 0
  }

  /** Steps of a stopped drain thread that has caught up until it leaves. */
  function ExitDistance(s: State): nat {
    match s.drain
    case Exited => 0
    case CheckRunning => 1
    case SeeHead(_) => 2
    case _ => 3
  }

  /** Loads that `Flush` has still to make on a ring that is drained. */
  function FlushDistance(s: State): nat {
    match s.flush
    case Flushed(_) => 0
    case Polling(_) => 2
    case SawTail(_, t, _) => if t == s.head then 1 else 3
    case SawHead(_, h, _) => if s.tail == h then 1 else 3
    case NotFlushing => 4
  }

  /** How a step of the drain thread brings it nearer. */
  predicate DrainNears(s: State, t: State, n: nat) {
    && s.freed <= t.freed && t.accepted == s.accepted && t.flush == s.flush
    && (s.freed < n <= |s.accepted| && !Leaving(s) ==>
          Distance(t, n) < Distance(s, n) && (t.freed >= n || !Leaving(t)))
    && (CaughtUp(s) && !s.running ==> ExitDistance(t) < ExitDistance(s) || t.drain.Exited?)
  }

  /** How a load of `Flush` brings it nearer once the ring is drained. */
  predicate FlushNears(s: State, t: State) {
    CaughtUp(s) && !s.flush.NotFlushing? ==> FlushDistance(t) < FlushDistance(s) || t.flush.Flushed?
  }

  /** What a step of any thread does to the distances. */
  predicate Nears(s: State, a: Action, t: State, n: nat) {
    && s.accepted <= t.accepted
    && (a.Stop? || t.running == s.running) && (t.running ==> s.running)
    && (if a.Drain? then DrainNears(s, t, n) else t.drain == s.drain && t.freed == s.freed && t.tail == s.tail)
    && (a.FlushLoad? ==> FlushNears(s, t))
    && (!a.FlushLoad? && !a.BeginFlush? ==> t.flush == s.flush)
  }

  lemma DrainStepNears(s: State, n: nat)
    requires Inv(s)
    ensures DrainNears(s, DrainStep(s), n)
  {
    Occupancy(s);
  }

  lemma FlushStepNears(s: State, tailFirst: bool)
    requires Inv(s)
    ensures FlushNears(s, FlushStep(s, tailFirst))
  {
    Occupancy(s);
  }

  lemma StepNears(s: State, a: Action, n: nat)
    requires Inv(s)
    ensures Nears(s, a, Step(s, a), n)
  {
    hide ProducerStep, DrainStep;
    match a
    case Drain =>
      DrainGrows(s);
      DrainStepNears(s, n);
    case FlushLoad(tailFirst) => FlushStepNears(s, tailFirst);
    case Producer => ProducerGrows(s);
    case _ =>
  }

  lemma QuietStep(s: State, a: Action)
    requires s.pc.Idle? && !a.StartLog?
    ensures var t := Step(s, a); t.pc.Idle? && t.accepted == s.accepted && t.head == s.head
  {
  }

  /** The first step of a schedule, and what it leaves to be run. */
  lemma FirstStep(s: State, schedule: seq<Action>, n: nat) returns (t: State)
    requires Inv(s) && schedule != []
    ensures Inv(t) && Nears(s, schedule[0], t, n)
    ensures Exec(s, schedule) == Exec(t, schedule[1..])
    ensures s.pc.Idle? && !schedule[0].StartLog? ==> t.pc.Idle? && t.accepted == s.accepted && t.head == s.head
  {
    t := Step(s, schedule[0]);
    ExecFirst(s, schedule);
    StepInv(s, schedule[0]);
    StepNears(s, schedule[0], n);
    if s.pc.Idle? && !schedule[0].StartLog? { QuietStep(s, schedule[0]); }
  }

  // ---- catching up -----------------------------------------------------------------------

  lemma {:induction false} CatchesUp(s: State, schedule: seq<Action>, n: nat, u: State)
    requires Inv(s) && Unstopped(s, schedule) && n <= |s.accepted|
    requires s.freed >= n || (!Leaving(s) && DrainCount(schedule) >= Distance(s, n))
    requires u == Exec(s, schedule)
    ensures u.freed >= n
    decreases schedule
  {
    if schedule != [] {
      var t := FirstStep(s, schedule, n);
      CatchesUp(t, schedule[1..], n, u);
    }
  }

  lemma DistanceBound(s: State, n: nat)
    ensures Distance(s, n) <= 7 * (n - s.freed) + 1
  {}

  /** From every reachable state of a running logger, seven steps of the drain thread
      per record in the ring, and one more, deliver them all, whatever the producer
      and the other threads do in between, short of stopping the logger. */
  lemma DrainDelivers(s: State, schedule: seq<Action>)
    requires Run(s) && s.running && !s.drain.Exited? && Stop !in schedule
    requires DrainCount(schedule) >= 7 * (|s.accepted| - s.freed) + 1
    ensures s.accepted <= Exec(s, schedule).sink <= Exec(s, schedule).accepted
  {
    DistanceBound(s, |s.accepted|);
    RunInv(s);
    DrainsAll(s, schedule);
  }

  lemma LeavesStopped(s: State)
    requires s.drain.Exited? ==> !s.running
    ensures DrainStep(s).drain.Exited? ==> !DrainStep(s).running
  {
  }

  lemma ExitedStepStopped(s: State, a: Action)
    requires s.drain.Exited? ==> !s.running
    ensures Step(s, a).drain.Exited? ==> !Step(s, a).running
  {
    hide DrainStep, ProducerStep;
    match a
    case Producer => ProducerGrows(s);
    case Drain => LeavesStopped(s);
    case _ =>
  }

  lemma {:induction false} ExitedIsStopped(cap: nat, minLevel: Level, schedule: seq<Action>)
    requires cap > 0
    ensures var s := Exec(Init(cap, minLevel), schedule); s.drain.Exited? ==> !s.running
    decreases schedule
  {
    if schedule != [] {
      var front, last := schedule[..|schedule| - 1], schedule[|schedule| - 1];
      ExitedIsStopped(cap, minLevel, front);
      ExitedStepStopped(Exec(Init(cap, minLevel), front), last);
    }
  }

  /** From construction on: as long as the logger is not stopped, what is published at some
      moment (`before`) is in the sink after seven steps of the drain thread per record in
      the ring, and one more (`after`). */
  lemma DeliversFromConstruction(cap: nat, minLevel: Level, before: seq<Action>, after: seq<Action>)
    requires PowerOfTwo(cap) && cap > 0 && Stop !in before && Stop !in after
    requires var s := Exec(Init(cap, minLevel), before); DrainCount(after) >= 7 * (|s.accepted| - s.freed) + 1
    ensures var s, u := Exec(Init(cap, minLevel), before), Exec(Init(cap, minLevel), before + after);
            s.accepted <= u.sink <= u.accepted
  {
    hide Exec, Init;
    var i := Init(cap, minLevel);
    RunsUntilStopped(cap, minLevel, before);
    ExitedIsStopped(cap, minLevel, before);
    ExecAppend(i, before, after);
    ExecGrows(i, before);
    InitCap(cap, minLevel);
    DrainDelivers(Exec(i, before), after);
  }

  lemma InitCap(cap: nat, minLevel: Level)
    requires cap > 0
    ensures Init(cap, minLevel).cap == cap
  {
  }

  lemma DrainsAll(s: State, schedule: seq<Action>)
    requires Run(s) && Unstopped(s, schedule)
    requires CaughtUp(s) || (!Leaving(s) && DrainCount(schedule) >= Distance(s, |s.accepted|))
    ensures s.accepted <= Exec(s, schedule).sink <= Exec(s, schedule).accepted
  {
    var u := Exec(s, schedule);
    RunInv(s);
    CatchesUp(s, schedule, |s.accepted|, u);
    RunExec(s, schedule);
    RunInv(u);
    ExecGrows(s, schedule);
  }

  // ---- leaving the drain loop ---------------------------------------------------------------

  /** A stopped drain thread leaves. */
  lemma {:induction false} Exits(s: State, schedule: seq<Action>, u: State)
    requires Inv(s) && s.pc.Idle? && NoLog(schedule) && !s.running
    requires CaughtUp(s) ==> DrainCount(schedule) >= ExitDistance(s)
    requires !CaughtUp(s) ==> !Leaving(s) && DrainCount(schedule) >= Distance(s, |s.accepted|) + 3
    requires u == Exec(s, schedule)
    ensures u.drain.Exited?
    decreases schedule
  {
    if schedule != [] {
      var t := FirstStep(s, schedule, |s.accepted|);
      Exits(t, schedule[1..], u);
    }
  }

  lemma StepLeaving(s: State, a: Action)
    requires Leaving(s)
    ensures var t := Step(s, a);
            Leaving(t) && t.sink == s.sink && (a.Drain? || s.drain.Exited? ==> t.drain.Exited?)
  {
  }

  /** A drain thread that is leaving delivers nothing more, whatever happens, new
      calls included. */
  lemma {:induction false} LeavesForGood(s: State, schedule: seq<Action>, u: State)
    requires Leaving(s) && u == Exec(s, schedule)
    ensures Leaving(u) && u.sink == s.sink
    ensures Drain in schedule || s.drain.Exited? ==> u.drain.Exited?
    decreases schedule
  {
    if schedule != [] {
      var front, last := schedule[..|schedule| - 1], schedule[|schedule| - 1];
      var t := Exec(s, front);
      LeavesForGood(s, front, t);
      StepLeaving(t, last);
    }
  }

  lemma {:induction false} CountedDrain(schedule: seq<Action>)
    requires DrainCount(schedule) > 0
    ensures Drain in schedule
    decreases schedule
  {
    if !schedule[0].Drain? { CountedDrain(schedule[1..]); }
  }

  /** What a stopped logger loses. With no call of `Log` under way the drain thread
      leaves; every published record is logged if and only if it was not already
      past its last look at the ring, with records still in it, when the running
      flag was cleared. */
  lemma ExitDrainsIff(s: State, schedule: seq<Action>)
    requires Run(s) && s.pc.Idle? && !s.running && NoLog(schedule)
    requires DrainCount(schedule) >= 7 * (|s.accepted| - s.freed) + 4
    ensures var t := Exec(s, schedule);
            && t.drain.Exited? && t.accepted == s.accepted
            && (t.sink == t.accepted <==> !(Leaving(s) && !CaughtUp(s)))
  {
    RunInv(s);
    QuietExec(s, schedule);
    if Leaving(s) && !CaughtUp(s) {
      CountedDrain(schedule);
      LeavesForGood(s, schedule, Exec(s, schedule));
    } else {
      DistanceBound(s, |s.accepted|);
      DrainsAll(s, schedule);
      Exits(s, schedule, Exec(s, schedule));
    }
  }

  // ---- returning from the flush --------------------------------------------------------------

  lemma {:induction false} Polled(s: State, schedule: seq<Action>, u: State)
    requires Inv(s) && s.pc.Idle? && NoLog(schedule) && BeginFlush !in schedule
    requires CaughtUp(s) && !s.flush.NotFlushing? && FlushLoads(schedule) >= FlushDistance(s)
    requires u == Exec(s, schedule)
    ensures u.flush.Flushed?
    decreases schedule
  {
    if schedule != [] {
      var t := FirstStep(s, schedule, |s.accepted|);
      StaysCaughtUp(s, t);
      Polled(t, schedule[1..], u);
    }
  }

  lemma StaysCaughtUp(s: State, t: State)
    requires Inv(s) && Inv(t) && CaughtUp(s) && s.freed <= t.freed && t.accepted == s.accepted
    ensures CaughtUp(t) && t.tail == s.tail && t.head == s.head
  {
  }

  lemma FlushGoesOn(s: State, a: Action)
    requires !s.flush.NotFlushing? && a != BeginFlush
    ensures !Step(s, a).flush.NotFlushing? && Step(s, a).flush.begin == s.flush.begin
  {
  }

  lemma {:induction false} StillFlushing(s: State, schedule: seq<Action>)
    requires !s.flush.NotFlushing? && BeginFlush !in schedule
    ensures !Exec(s, schedule).flush.NotFlushing?
  {
    if schedule != [] {
      StillFlushing(s, schedule[..|schedule| - 1]);
      FlushGoesOn(Exec(s, schedule[..|schedule| - 1]), schedule[|schedule| - 1]);
    }
  }

  /** `Flush` returns: with the producer idle and the logger running, once the drain
      thread has had the steps it needs (`draining`), three more loads of the polling
      loop end it, whatever else happens between them (`polling`). */
  lemma FlushReturns(s: State, draining: seq<Action>, polling: seq<Action>)
    requires Run(s) && s.pc.Idle? && s.running && !s.drain.Exited? && !s.flush.NotFlushing?
    requires NoLog(draining) && Stop !in draining && BeginFlush !in draining
    requires NoLog(polling) && BeginFlush !in polling
    requires DrainCount(draining) >= 7 * (|s.accepted| - s.freed) + 1 && FlushLoads(polling) >= 3
    ensures Exec(s, draining + polling).flush.Flushed?
  {
    var t := Exec(s, draining);
    RunInv(s);
    DistanceBound(s, |s.accepted|);
    CatchesUp(s, draining, |s.accepted|, t);
    QuietExec(s, draining);
    StillFlushing(s, draining);
    RunExec(s, draining);
    RunInv(t);
    ExecAppend(s, draining, polling);
    Polled(t, polling, Exec(t, polling));
  }

  // ---- a whole call of Flush -------------------------------------------------------------------

  /** A call of `Flush` returns, for the first time or again, and has waited for all that
      was published when it began. */
  lemma FlushCallReturns(s: State, draining: seq<Action>, polling: seq<Action>)
    requires Run(s) && s.pc.Idle? && s.running && !s.drain.Exited?
    requires s.flush.NotFlushing? || s.flush.Flushed?
    requires NoLog(draining) && Stop !in draining && BeginFlush !in draining
    requires NoLog(polling) && BeginFlush !in polling
    requires DrainCount(draining) >= 7 * (|s.accepted| - s.freed) + 1 && FlushLoads(polling) >= 3
    ensures var f := Exec(Step(s, BeginFlush), draining + polling).flush;
            f.Flushed? && f.begin == |s.accepted|
  {
    var b := Step(s, BeginFlush);
    RunStep(s, BeginFlush);
    FlushReturns(b, draining, polling);
    FlushBegan(b, draining + polling, |s.accepted|);
  }

  lemma {:induction false} FreedGrows(s: State, schedule: seq<Action>)
    ensures s.freed <= Exec(s, schedule).freed
  {
    if schedule != [] {
      FreedGrows(s, schedule[..|schedule| - 1]);
      FreedGrowsStep(Exec(s, schedule[..|schedule| - 1]), schedule[|schedule| - 1]);
    }
  }

  lemma FreedGrowsStep(s: State, a: Action)
    ensures s.freed <= Step(s, a).freed
  {
    hide DrainStep, ProducerStep;
    match a
    case Producer => ProducerGrows(s);
    case Drain => DrainGrows(s);
    case _ =>
  }

  lemma {:induction false} StaysStopped(s: State, schedule: seq<Action>)
    requires !s.running
    ensures !Exec(s, schedule).running
  {
    if schedule != [] {
      StaysStopped(s, schedule[..|schedule| - 1]);
      StepFlags(Exec(s, schedule[..|schedule| - 1]), schedule[|schedule| - 1]);
    }
  }

  /** An orderly shutdown, from start to end: the producer has stopped, `Flush` is called
      and gets the steps it needs, the destructor clears the running flag, and the drain
      thread takes three more steps. It has left, and every published record is logged. */
  lemma ShutdownLosesNothing(s: State, draining: seq<Action>, polling: seq<Action>, leaving: seq<Action>)
    requires Run(s) && s.pc.Idle? && s.running && !s.drain.Exited?
    requires s.flush.NotFlushing? || s.flush.Flushed?
    requires NoLog(draining) && Stop !in draining && BeginFlush !in draining
    requires NoLog(polling) && BeginFlush !in polling && NoLog(leaving)
    requires DrainCount(draining) >= 7 * (|s.accepted| - s.freed) + 1 && FlushLoads(polling) >= 3
    requires DrainCount(leaving) >= 3
    ensures var u := Exec(Step(s, BeginFlush), draining + polling);
            var w := Exec(u, [Stop] + leaving);
            && u.flush.Flushed? && w.drain.Exited? && !w.running
            && w.accepted == s.accepted && u.sink == w.sink == s.accepted
            && |w.sink| + w.drops == w.calls
  {
    hide Exec;
    var b := Step(s, BeginFlush);
    var u := Exec(b, draining + polling);
    RunStep(s, BeginFlush);
    QuietStep(s, BeginFlush);
    FlushCallReturns(s, draining, polling);
    FlushThenDestroy(s, draining + polling, [Stop] + leaving);
    RunExec(b, draining + polling);
    QuietExec(b, draining + polling);
    StaysFreed(s, draining, polling);
    LeavesAfterStop(u, leaving);
    RunExec(u, [Stop] + leaving);
    QuietExec(u, [Stop] + leaving);
    Conservation(Exec(u, [Stop] + leaving));
  }

  /** After the drain steps of a flush everything is freed, and stays so. */
  lemma StaysFreed(s: State, draining: seq<Action>, polling: seq<Action>)
    requires Run(s) && s.running && !s.drain.Exited? && Stop !in draining
    requires s.flush.NotFlushing? || s.flush.Flushed?
    requires DrainCount(draining) >= 7 * (|s.accepted| - s.freed) + 1
    ensures Exec(Step(s, BeginFlush), draining + polling).freed >= |s.accepted|
  {
    hide Exec;
    var b := Step(s, BeginFlush);
    RunStep(s, BeginFlush);
    RunInv(b);
    DistanceBound(b, |s.accepted|);
    CatchesUp(b, draining, |s.accepted|, Exec(b, draining));
    ExecAppend(b, draining, polling);
    FreedGrows(Exec(b, draining), polling);
  }

  lemma LeavesAfterStop(u: State, leaving: seq<Action>)
    requires Run(u) && u.pc.Idle? && u.freed >= |u.accepted| && NoLog(leaving) && DrainCount(leaving) >= 3
    ensures var w := Exec(u, [Stop] + leaving); w.drain.Exited? && !w.running
  {
    hide Exec;
    var v := Step(u, Stop);
    RunInv(u);
    RunStep(u, Stop);
    RunInv(v);
    ExecOne(u, Stop);
    ExecAppend(u, [Stop], leaving);
    StaysStopped(v, leaving);
    Exits(v, leaving, Exec(v, leaving));
  }

  // ---- stopping without a flush ----------------------------------------------------------

  /** The drain thread has found the ring empty; then `rec` was published; then the
      logger was stopped. */
  function PublishedLate(cap: nat, rec: Record): State
    requires cap > 0
  {
    var s := Init(cap, 0);
    WithSlot(s, 0, Payload(rec.time, rec.level, Overlay(SlotAt(s, 0).msg, rec.text), |rec.text|))
      .(head := 1, accepted := [rec], calls := 1, drain := CheckRunning, running := false)
  }

  /** Without a flush such a record is lost, for every capacity and whatever happens
      next. */
  lemma UnflushedLoss(cap: nat, rec: Record, schedule: seq<Action>)
    requires PowerOfTwo(cap) && cap > 0 && |rec.text| <= MAX_MSG_LEN && Drain in schedule
    ensures var s := PublishedLate(cap, rec);
            Run(s) && s.pc.Idle? && Exec(s, schedule).drain.Exited? && Exec(s, schedule).sink == []
  {
    PublishedLateRun(cap, rec);
    LeavesForGood(PublishedLate(cap, rec), schedule, Exec(PublishedLate(cap, rec), schedule));
  }

  lemma RunTo(s: State, a: Action, t: State)
    requires Run(s) && t == Step(s, a)
    ensures Run(t)
  {
    RunStep(s, a);
  }

  lemma FoundEmptyRun(cap: nat)
    requires PowerOfTwo(cap) && cap > 0
    ensures Run(Init(cap, 0).(drain := CheckRunning))
  {
    var s := Init(cap, 0);
    assert s == Exec(s, []);
    RunTo(s, Drain, s.(drain := SeeHead(0)));
    RunTo(s.(drain := SeeHead(0)), Drain, s.(drain := CheckRunning));
  }

  lemma FindsRoom(s: State, rec: Record)
    requires Run(s) && s.pc.Idle? && |rec.text| <= MAX_MSG_LEN && s.minLevel == 0 && s.head == s.tail
    ensures Run(s.(calls := s.calls + 1, pc := WriteLevel(rec, s.head)))
  {
    var a := s.(calls := s.calls + 1, pc := LoadHead(rec));
    RunTo(s, StartLog(rec), a);
    var b := a.(pc := LoadTail(rec, s.head));
    RunTo(a, Producer, b);
    RunTo(b, Producer, a.(pc := WriteLevel(rec, s.head)));
  }

  lemma PublishedLateRun(cap: nat, rec: Record)
    requires PowerOfTwo(cap) && cap > 0 && |rec.text| <= MAX_MSG_LEN
    ensures Run(PublishedLate(cap, rec))
  {
    var e := Init(cap, 0).(drain := CheckRunning);
    FoundEmptyRun(cap);
    FindsRoom(e, rec);
    var c := e.(calls := 1, pc := WriteLevel(rec, 0));
    WritesRun(c, rec);
    var d := Written(c, rec);
    var p := d.(head := 1, accepted := [rec], pc := Idle);
    RunTo(d, Producer, p);
    RunTo(p, Stop, p.(running := false));
  }

  /** The slot stores of an accepting call, undisturbed. */
  function Written(s: State, rec: Record): State
    requires s.pc.WriteLevel?
  {
    var h := s.pc.head;
    WithSlot(s, h, Payload(rec.time, rec.level, Overlay(SlotAt(s, h).msg, rec.text), |rec.text|))
      .(pc := Publish(rec, h))
  }

  lemma WritesRun(s: State, rec: Record)
    requires Run(s) && s.pc.WriteLevel? && s.pc.rec == rec
    ensures Run(Written(s, rec))
  {
    var h := s.pc.head;
    var f := SlotAt(s, h);
    var f1 := f.(level := rec.level);
    var f2 := f1.(time := rec.time);
    var f3 := f2.(msg := Overlay(f.msg, rec.text));
    RunStep(s, Producer);
    Rewrite(s, h, f1, WriteTime(rec, h), f2, WriteMsg(rec, h));
    RunStep(WithSlot(s, h, f1).(pc := WriteTime(rec, h)), Producer);
    Rewrite(s, h, f2, WriteMsg(rec, h), f3, WriteLen(rec, h));
    RunStep(WithSlot(s, h, f2).(pc := WriteMsg(rec, h)), Producer);
    Rewrite(s, h, f3, WriteLen(rec, h), f3.(len := |rec.text|), Publish(rec, h));
    RunStep(WithSlot(s, h, f3).(pc := WriteLen(rec, h)), Producer);
  }

  lemma Rewrite(s: State, h: Word, f: Payload, from: ProducerPc, g: Payload, to: ProducerPc)
    ensures WithSlot(WithSlot(s, h, f).(pc := from), h, g).(pc := to) == WithSlot(s, h, g).(pc := to)
  {
  }
}
