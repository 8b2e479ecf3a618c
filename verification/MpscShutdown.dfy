/** Draining, flushing and stopping the multi-producer ring. */
module MpscShutdown {
  import opened Words
  import opened Records
  import opened MpscModel
  import opened MpscInvariant
  import opened MpscHistory
  import opened MpscTheorems

  /** No producer is inside `Log`. */
  predicate AllIdle(s: State) {
    forall p :: p in s.pcs ==> s.pcs[p].Idle?
  }

  predicate NoLog(schedule: seq<Action>) {
    forall a :: a in schedule ==> !a.StartLog?
  }

  // ---- quiescence ----------------------------------------------------------

  lemma IdleProducer(s: State, p: ProducerId, spurious: bool)
    requires Pc(s, p).Idle?
    ensures Step(s, Producer(p, spurious)) == s
  {
  }

  /** Without a call of `Log` under way, no step claims anything. */
  lemma QuietStepIdle(s: State, a: Action)
    requires AllIdle(s) && !a.StartLog?
    ensures AllIdle(Step(s, a)) && Step(s, a).claims == s.claims && Step(s, a).enq == s.enq
  {
    hide Step;
    if a.Producer? {
      IdleProducer(s, a.p, a.spurious);
    } else {
      QuietStep(s, a);
    }
  }

  lemma {:induction false} QuietExec(s: State, schedule: seq<Action>)
    requires AllIdle(s) && NoLog(schedule)
    ensures AllIdle(Exec(s, schedule)) && Exec(s, schedule).claims == s.claims && Exec(s, schedule).enq == s.enq
  {
    if schedule != [] {
      QuietExec(s, schedule[..|schedule| - 1]);
      QuietStepIdle(Exec(s, schedule[..|schedule| - 1]), schedule[|schedule| - 1]);
    }
  }

  /** With no producer inside `Log`, every claimed position that the drain thread
      has not consumed yet is published. */
  lemma IdlePublished(s: State, q: nat)
    requires Run(s) && AllIdle(s) && s.deq <= q < s.enq
    ensures Published(s, q)
  {
    RunFacts(s);
  }

  /** Nothing more to deliver: the sink has every accepted record, and the cells
      are the initial ones rotated to start at position `enq`. */
  ghost predicate Drained(s: State) {
    && DeliveredAll(s)
    && s.freed == s.deq == s.enq
    && forall q: nat {:trigger Slot(s.cap, q)} :: s.enq <= q < s.enq + s.cap ==>
         s.cells[Slot(s.cap, q)].sequence == q
  }

  lemma CaughtUp(s: State)
    requires Inv(s) && s.freed == s.enq
    ensures Drained(s)
  {
    assert DeliveredAll(s);
  }

  ghost predicate DeliveredAll(s: State) {
    s.sink == Claimed(s, |s.claims|)
  }

  // ---- schedules -----------------------------------------------------------------

  function DrainCount(schedule: seq<Action>): nat {
    if schedule == [] then 0 else One(schedule[0].Drain?) + DrainCount(schedule[1..])
  }

  function FlushLoads(schedule: seq<Action>): nat {
    if schedule == [] then 0 else One(schedule[0].FlushLoad?) + FlushLoads(schedule[1..])
  }

  /** A running logger is not stopped. */
  predicate Unstopped(s: State, schedule: seq<Action>) {
    s.running ==> Stop !in schedule
  }

  /** How many of its own steps the drain thread is from having freed position
      `n - 1`. */
  function Distance(s: State, n: nat): int {
    8 * (n - s.freed) +
    match s.drain
    case CheckRunning => 1
    case LoadDequeue => 0
    case LoadCell(_) => -1
    case ReadTime(_) => -2
    case ReadLevel(_, _) => -3
    case ReadLen(_, _, _) => -4
    case Emit(_, _, _, _) => -5
    case Advance(_) => -6
    case Free(_) => -7
    case Exited => 0
  }

  /** Steps of a stopped drain thread that has caught up until it leaves. */
  function ExitDistance(s: State): nat {
    match s.drain
    case Exited => 0
    case CheckRunning => 1
    case LoadCell(_) => 2
    case _ => 3
  }

  /** Loads that `Flush` has still to make on a ring that is drained. */
  function FlushDistance(s: State): nat {
    match s.flush
    case Flushed(_) => 0
    case Polling(_) => 2
    case SawDequeue(_, d) => if d == s.enq then 1 else 3
    case SawEnqueue(_, e) => if s.deq == e then 1 else 3
    case NotFlushing => 4
  }

  /** The drain thread has left, or is about to because it found the ring empty
      earlier and the logger has been stopped since. */
  predicate Leaving(s: State) {
    s.drain.Exited? || (s.drain.CheckRunning? && !s.running)
  }

  /** How a step of the drain thread brings it nearer. */
  ghost predicate DrainNears(s: State, t: State, n: nat) {
    && s.freed <= t.freed
    && (s.freed < n && ReadyUpTo(s, n) && !Leaving(s) ==>
          Distance(t, n) < Distance(s, n) && (t.freed >= n || !Leaving(t)))
    && (s.freed == s.enq && !s.running ==> ExitDistance(t) < ExitDistance(s) || t.drain.Exited?)
    && t.flush == s.flush && t.enq == s.enq
  }

  /** How a load of `Flush` brings it nearer once the ring is drained. */
  ghost predicate FlushNears(s: State, t: State) {
    s.freed == s.enq && !s.flush.NotFlushing? ==> FlushDistance(t) < FlushDistance(s) || t.flush.Flushed?
  }

  /** What a step of any thread does to the distances. */
  ghost predicate Nears(s: State, a: Action, t: State, n: nat) {
    && (a.Stop? || t.running == s.running) && (t.running ==> s.running)
    && (if a.Drain? then DrainNears(s, t, n) else t.drain == s.drain && t.freed == s.freed && t.deq == s.deq)
    && (a.FlushLoad? ==> FlushNears(s, t))
    && (!a.FlushLoad? && !a.BeginFlush? ==> t.flush == s.flush)
  }

  lemma LookNears(s: State, n: nat)
    requires Inv(s) && Bounded(s) && s.drain.LoadCell?
    ensures DrainNears(s, DrainStep(s), n)
  {
    CellToRead(s);
  }

  lemma DrainStepNears(s: State, n: nat)
    requires Inv(s) && Bounded(s)
    ensures DrainNears(s, DrainStep(s), n)
  {
    if s.drain.LoadCell? { LookNears(s, n); }
  }

  lemma FlushStepNears(s: State, dequeueFirst: bool)
    requires Inv(s)
    ensures FlushNears(s, FlushStep(s, dequeueFirst))
  {
  }

  lemma StepNears(s: State, a: Action, n: nat)
    requires Inv(s) && Bounded(s)
    ensures Nears(s, a, Step(s, a), n)
  {
    hide DrainStep, ProducerStep, FlushStep;
    match a
    case Drain =>
      DrainFrame(s);
      DrainStepNears(s, n);
    case FlushLoad(dequeueFirst) =>
      FlushStepOk(s, dequeueFirst);
      FlushStepNears(s, dequeueFirst);
    case Producer(p, spurious) => ProducerFrame(s, p, spurious);
    case _ =>
  }

  /** The first step of a schedule, and what it leaves to be run. */
  lemma FirstStep(s: State, schedule: seq<Action>, n: nat) returns (t: State)
    requires Inv(s) && schedule != [] && Bounded(Exec(s, schedule))
    ensures Inv(t) && Nears(s, schedule[0], t, n) && PublishedStays(s, t)
    ensures Exec(s, schedule) == Exec(t, schedule[1..])
    ensures AllIdle(s) && !schedule[0].StartLog? ==> AllIdle(t) && t.enq == s.enq
  {
    t := Step(s, schedule[0]);
    ExecFirst(s, schedule);
    ExecCap(t, schedule[1..]);
    StepBounded(s, schedule[0]);
    StepInv(s, schedule[0]);
    StepNears(s, schedule[0], n);
    StepKeepsPublished(s, schedule[0]);
    if AllIdle(s) && !schedule[0].StartLog? { QuietStepIdle(s, schedule[0]); }
  }

  // ---- catching up -------------------------------------------------------------

  lemma {:induction false} CatchesUp(s: State, schedule: seq<Action>, n: nat, u: State)
    requires Inv(s) && Unstopped(s, schedule)
    requires s.freed >= n || (ReadyUpTo(s, n) && !Leaving(s) && DrainCount(schedule) >= Distance(s, n))
    requires u == Exec(s, schedule) && Bounded(u)
    ensures u.freed >= n
    decreases schedule
  {
    if schedule != [] {
      var t := FirstStep(s, schedule, n);
      CatchesUp(t, schedule[1..], n, u);
    }
  }

  lemma DistanceBound(s: State, n: nat)
    ensures Distance(s, n) <= 8 * (n - s.freed) + 1
  {}

  /** Records that are ready in sequence are delivered within eight steps of the
      drain thread for each, and one more, whatever the producers and the other
      threads do in between, short of stopping the logger. */
  lemma DrainDelivers(s: State, schedule: seq<Action>, n: nat)
    requires Run(s) && s.running && !s.drain.Exited? && ReadyUpTo(s, n)
    requires Stop !in schedule && Bounded(Exec(s, schedule))
    requires DrainCount(schedule) >= 8 * (n - s.freed) + 1
    ensures var u := Exec(s, schedule);
            n <= |s.claims| && n <= |u.sink| && u.sink[..n] == Claimed(s, n)
  {
    var u := Exec(s, schedule);
    RunInv(s);
    DistanceBound(s, n);
    CatchesUp(s, schedule, n, u);
    ReachableExec(s, schedule);
    ExecCap(s, schedule);
    RunInv(u);
    if s.freed < n { assert Published(s, n - 1); }
  }

  lemma LeavesStopped(s: State)
    requires s.drain.Exited? ==> !s.running
    ensures DrainStep(s).drain.Exited? ==> !DrainStep(s).running
  {
  }

  /** The drain thread of a logger that has not been stopped since its construction is
      in its loop, and the logger runs. */
  lemma DrainsUntilStopped(cap: nat, minLevel: Level, schedule: seq<Action>)
    requires cap > 0
    ensures var s := Exec(Init(cap, minLevel), schedule);
            && (s.drain.Exited? ==> Stop in schedule)
            && (s.running <==> Stop !in schedule)
  {
    RunsUntilStopped(cap, minLevel, schedule);
    ExitedIsStopped(cap, minLevel, schedule);
  }

  lemma {:induction false} ExitedIsStopped(cap: nat, minLevel: Level, schedule: seq<Action>)
    requires cap > 0
    ensures var s := Exec(Init(cap, minLevel), schedule); s.drain.Exited? ==> !s.running
    decreases schedule
  {
    if schedule != [] {
      var front, last := schedule[..|schedule| - 1], schedule[|schedule| - 1];
      ExitedIsStopped(cap, minLevel, front);
      ExitedStepStopped(Exec(Init(cap, minLevel), front), last);
    }
  }

  lemma ExitedStepStopped(s: State, a: Action)
    requires s.drain.Exited? ==> !s.running
    ensures Step(s, a).drain.Exited? ==> !Step(s, a).running
  {
    hide DrainStep, ProducerStep;
    match a
    case Producer(p, spurious) => ProducerFrame(s, p, spurious);
    case Drain => LeavesStopped(s);
    case _ =>
  }

  /** From construction on: as long as the logger is not stopped, records that are ready
      in sequence at some moment (`before`) are in the sink after eight steps of the
      drain thread for each, and one more (`after`). */
  lemma DeliversFromConstruction(cap: nat, minLevel: Level, before: seq<Action>, after: seq<Action>, n: nat)
    requires cap >= 2 && Stop !in before && Stop !in after
    requires Bounded(Exec(Init(cap, minLevel), before + after))
    requires ReadyUpTo(Exec(Init(cap, minLevel), before), n)
    requires DrainCount(after) >= 8 * (n - Exec(Init(cap, minLevel), before).freed) + 1
    ensures var s, u := Exec(Init(cap, minLevel), before), Exec(Init(cap, minLevel), before + after);
            n <= |s.claims| && n <= |u.sink| && u.sink[..n] == Claimed(s, n)
  {
    hide Exec, Init;
    var i := Init(cap, minLevel);
    var s := Exec(i, before);
    DrainsUntilStopped(cap, minLevel, before);
    ExecAppend(i, before, after);
    ExecCap(i, before);
    ExecCap(s, after);
    InitCap(cap, minLevel);
    DrainDelivers(s, after, n);
  }

  lemma InitCap(cap: nat, minLevel: Level)
    requires cap > 0
    ensures Init(cap, minLevel).cap == cap
  {
  }

  /** Quiescent drain: from every reachable state in which no producer is inside
      `Log` and the logger has not been stopped, however the other threads' steps
      are mixed in, eight steps of the drain thread per remaining record, and one
      more, deliver exactly what remains. */
  lemma QuiescentDrain(s: State, schedule: seq<Action>)
    requires Run(s) && AllIdle(s) && s.running && !s.drain.Exited?
    requires NoLog(schedule) && Stop !in schedule
    requires DrainCount(schedule) >= 8 * (s.enq - s.freed) + 1
    ensures Drained(Exec(s, schedule))
    ensures Exec(s, schedule).claims == s.claims
  {
    DistanceBound(s, s.enq);
    DrainsAll(s, schedule);
  }

  lemma DrainsAll(s: State, schedule: seq<Action>)
    requires Run(s) && AllIdle(s) && NoLog(schedule) && Unstopped(s, schedule)
    requires s.freed == s.enq || (!Leaving(s) && DrainCount(schedule) >= Distance(s, s.enq))
    ensures Drained(Exec(s, schedule))
    ensures Exec(s, schedule).claims == s.claims
  {
    var u := Exec(s, schedule);
    RunInv(s);
    QuietExec(s, schedule);
    ExecCap(s, schedule);
    IdleReady(s);
    CatchesUp(s, schedule, s.enq, u);
    ExecInv(s, schedule);
    CaughtUp(u);
  }

  // ---- leaving the drain loop -----------------------------------------------

  /** A stopped drain thread leaves. */
  lemma {:induction false} Exits(s: State, schedule: seq<Action>, u: State)
    requires Inv(s) && AllIdle(s) && NoLog(schedule) && !s.running
    requires s.freed == s.enq ==> DrainCount(schedule) >= ExitDistance(s)
    requires s.freed < s.enq ==> !Leaving(s) && DrainCount(schedule) >= Distance(s, s.enq) + 3
    requires u == Exec(s, schedule) && Bounded(u)
    ensures u.drain.Exited?
    decreases schedule
  {
    if schedule != [] {
      var t := FirstStep(s, schedule, s.enq);
      IdleReady(s);
      Exits(t, schedule[1..], u);
    }
  }

  lemma IdleReady(s: State)
    requires Inv(s) && AllIdle(s)
    ensures ReadyUpTo(s, s.enq)
  {
  }

  lemma FlushFrame(s: State, dequeueFirst: bool)
    ensures var t := FlushStep(s, dequeueFirst); t == s.(flush := t.flush)
  {
  }

  lemma StepLeaving(s: State, a: Action)
    requires Leaving(s)
    ensures var t := Step(s, a);
            Leaving(t) && t.sink == s.sink && (a.Drain? || s.drain.Exited? ==> t.drain.Exited?)
  {
    hide ProducerStep, FlushStep;
    match a
    case Producer(p, spurious) => ProducerFrame(s, p, spurious);
    case FlushLoad(dequeueFirst) => FlushFrame(s, dequeueFirst);
    case _ =>
  }

  /** A drain thread that is leaving delivers nothing more, whatever happens, new
      calls included. */
  lemma {:induction false} LeavesForGood(s: State, schedule: seq<Action>, u: State)
    requires Leaving(s) && u == Exec(s, schedule)
    ensures Leaving(u) && u.sink == s.sink
    ensures Drain in schedule || s.drain.Exited? ==> u.drain.Exited?
    decreases schedule
  {
    if schedule != [] {
      var front, last := schedule[..|schedule| - 1], schedule[|schedule| - 1];
      var t := Exec(s, front);
      LeavesForGood(s, front, t);
      StepLeaving(t, last);
    }
  }

  lemma {:induction false} CountedDrain(schedule: seq<Action>)
    requires DrainCount(schedule) > 0
    ensures Drain in schedule
    decreases schedule
  {
    if !schedule[0].Drain? { CountedDrain(schedule[1..]); }
  }

  /** What a stopped logger loses. The drain thread always leaves; it leaves with
      every accepted record delivered if and only if it was not already past its
      last look at the ring, with records still in it, when the flag was cleared. */
  lemma ExitDrainsIff(s: State, schedule: seq<Action>)
    requires Run(s) && AllIdle(s) && !s.running && NoLog(schedule)
    requires DrainCount(schedule) >= 8 * (s.enq - s.freed) + 4
    ensures var t := Exec(s, schedule);
            && t.drain.Exited?
            && t.claims == s.claims
            && (DeliveredAll(t) <==> !(Leaving(s) && s.freed < s.enq))
  {
    RunInv(s);
    QuietExec(s, schedule);
    if Leaving(s) && s.freed < s.enq {
      LeavingLoses(s, schedule);
    } else {
      DistanceBound(s, s.enq);
      ExecCap(s, schedule);
      DrainsAll(s, schedule);
      Exits(s, schedule, Exec(s, schedule));
    }
  }

  lemma LeavingLoses(s: State, schedule: seq<Action>)
    requires Run(s) && Leaving(s) && s.freed < s.enq && DrainCount(schedule) > 0
    requires Exec(s, schedule).claims == s.claims
    ensures var t := Exec(s, schedule); t.drain.Exited? && !DeliveredAll(t)
  {
    RunFacts(s);
    CountedDrain(schedule);
    LeavesForGood(s, schedule, Exec(s, schedule));
    assert |s.sink| < |s.claims|;
  }

  // ---- flush ---------------------------------------------------------------

  /** When `Flush` has returned, every record claimed before it was called is in
      the sink, whichever of its two loads came first and whatever the producers
      did meanwhile: the dequeue index only grows, and so does the enqueue index. */
  lemma FlushDelivers(s: State)
    requires Run(s) && s.flush.Flushed?
    ensures s.flush.begin <= |s.sink| && s.flush.begin <= |s.claims|
    ensures s.sink[..s.flush.begin] == Claimed(s, s.flush.begin)
  {
    RunFacts(s);
  }

  lemma {:induction false} Polled(s: State, schedule: seq<Action>, u: State)
    requires Inv(s) && AllIdle(s) && NoLog(schedule) && BeginFlush !in schedule
    requires s.freed == s.enq && !s.flush.NotFlushing? && FlushLoads(schedule) >= FlushDistance(s)
    requires u == Exec(s, schedule) && Bounded(u)
    ensures u.flush.Flushed?
    decreases schedule
  {
    if schedule != [] {
      var t := FirstStep(s, schedule, s.enq);
      Polled(t, schedule[1..], u);
    }
  }

  /** `Flush` returns: with no producer inside `Log` and the logger running, once the
      drain thread has had the steps it needs (`draining`), three more loads of the
      polling loop end it, whatever else happens between them (`polling`), the
      stop of the logger included. */
  lemma FlushReturns(s: State, draining: seq<Action>, polling: seq<Action>)
    requires Run(s) && AllIdle(s) && s.running && !s.drain.Exited? && !s.flush.NotFlushing?
    requires NoLog(draining) && Stop !in draining && BeginFlush !in draining
    requires NoLog(polling) && BeginFlush !in polling
    requires DrainCount(draining) >= 8 * (s.enq - s.freed) + 1 && FlushLoads(polling) >= 3
    ensures Exec(s, draining + polling).flush.Flushed?
  {
    var t := Exec(s, draining);
    QuiescentDrain(s, draining);
    QuietExec(s, draining);
    RunFacts(s);
    StillFlushing(s, draining);
    ReachableExec(s, draining);
    ExecCap(s, draining);
    RunInv(t);
    ExecAppend(s, draining, polling);
    QuietExec(t, polling);
    ExecCap(t, polling);
    Polled(t, polling, Exec(t, polling));
  }

  lemma {:induction false} StillFlushing(s: State, schedule: seq<Action>)
    requires !s.flush.NotFlushing? && BeginFlush !in schedule
    ensures !Exec(s, schedule).flush.NotFlushing?
  {
    if schedule != [] {
      StillFlushing(s, schedule[..|schedule| - 1]);
      FlushGoesOn(Exec(s, schedule[..|schedule| - 1]), schedule[|schedule| - 1]);
    }
  }

  lemma FlushGoesOn(s: State, a: Action)
    requires !s.flush.NotFlushing? && a != BeginFlush
    ensures !Step(s, a).flush.NotFlushing? && Step(s, a).flush.begin == s.flush.begin
  {
    hide ProducerStep, DrainStep;
    match a
    case Producer(p, spurious) => ProducerFrame(s, p, spurious);
    case Drain => DrainFrame(s);
    case _ =>
  }

  lemma {:induction false} FlushBegan(s: State, schedule: seq<Action>, b: nat)
    requires s.flush == Polling(b) && !(BeginFlush in schedule)
    ensures var f := Exec(s, schedule).flush; !f.NotFlushing? && f.begin == b
  {
    if schedule != [] {
      FlushBegan(s, schedule[..|schedule| - 1], b);
      FlushGoesOn(Exec(s, schedule[..|schedule| - 1]), schedule[|schedule| - 1]);
    }
  }

  lemma {:induction false} SinkGrows(s: State, schedule: seq<Action>)
    ensures s.sink <= Exec(s, schedule).sink
  {
    if schedule != [] {
      SinkGrows(s, schedule[..|schedule| - 1]);
      SinkGrowsStep(Exec(s, schedule[..|schedule| - 1]), schedule[|schedule| - 1]);
    }
  }

  lemma SinkGrowsStep(s: State, a: Action)
    ensures s.sink <= Step(s, a).sink
  {
    hide ProducerStep, FlushStep;
    match a
    case Producer(p, spurious) => ProducerFrame(s, p, spurious);
    case FlushLoad(dequeueFirst) => FlushFrame(s, dequeueFirst);
    case _ =>
  }

  /** With every producer idle and every accepted record in the sink, what was
      logged and what was dropped add up to what was produced. */
  lemma Accounting(s: State)
    requires Run(s) && AllIdle(s) && DeliveredAll(s)
    ensures |s.sink| + s.drops == |s.callers|
  {
    RunFacts(s);
    assert UndecidedSet(s.pcs) == {};
  }

  lemma FlushEnds(s: State, flushing: seq<Action>)
    requires Run(s) && AllIdle(s) && (s.flush.NotFlushing? || s.flush.Flushed?)
    requires NoLog(flushing) && !(BeginFlush in flushing)
    requires Exec(Step(s, BeginFlush), flushing).flush.Flushed?
    ensures var t := Exec(Step(s, BeginFlush), flushing);
            Run(t) && AllIdle(t) && t.claims == s.claims && DeliveredAll(t)
  {
    var b := Step(s, BeginFlush);
    var t := Exec(b, flushing);
    RunFacts(s);
    ExecOne(s, BeginFlush);
    ReachableExec(s, [BeginFlush]);
    ReachableExec(b, flushing);
    QuietExec(b, flushing);
    ExecCap(b, flushing);
    FlushBegan(b, flushing, s.enq);
    FlushDelivers(t);
    SinkInClaimOrder(t);
  }

  lemma StaysDelivered(t: State, rest: seq<Action>)
    requires Run(t) && AllIdle(t) && DeliveredAll(t) && NoLog(rest)
    ensures var u := Exec(t, rest);
            u.claims == t.claims && u.sink == t.sink && |u.sink| + u.drops == |u.callers|
  {
    hide Exec;
    var u := Exec(t, rest);
    ReachableExec(t, rest);
    QuietExec(t, rest);
    ExecCap(t, rest);
    SinkInClaimOrder(u);
    SinkGrows(t, rest);
    Accounting(u);
  }

  /** Flush, then destroy, loses nothing: producers stop, `Flush` runs and returns
      (`flushing`), and after that anything but a new `Log` may happen (`rest`),
      in particular clearing the running flag at any moment. Every accepted record
      is in the sink from the return of `Flush` on, and stays the last one; what
      was logged and what was dropped add up to what was produced. */
  lemma FlushThenDestroy(s: State, flushing: seq<Action>, rest: seq<Action>)
    requires Run(s) && AllIdle(s) && (s.flush.NotFlushing? || s.flush.Flushed?)
    requires NoLog(flushing) && !(BeginFlush in flushing) && NoLog(rest)
    requires Exec(Step(s, BeginFlush), flushing).flush.Flushed?
    ensures var t := Exec(Step(s, BeginFlush), flushing);
            var u := Exec(t, rest);
            && u.claims == s.claims && t.sink == u.sink == Claimed(s, |s.claims|)
            && |u.sink| + u.drops == |u.callers|
  {
    hide Exec;
    FlushEnds(s, flushing);
    StaysDelivered(Exec(Step(s, BeginFlush), flushing), rest);
  }

  // ---- a whole call of Flush -------------------------------------------------------

  /** A call of `Flush` returns, for the first time or again: with no producer inside
      `Log` and the logger running, once the drain thread has had the steps it needs
      (`draining`) and the polling loop three more loads (`polling`), whatever else
      happens between them. It has waited for all that was claimed when it began. */
  lemma FlushCallReturns(s: State, draining: seq<Action>, polling: seq<Action>)
    requires Run(s) && AllIdle(s) && s.running && !s.drain.Exited?
    requires s.flush.NotFlushing? || s.flush.Flushed?
    requires NoLog(draining) && Stop !in draining && BeginFlush !in draining
    requires NoLog(polling) && BeginFlush !in polling
    requires DrainCount(draining) >= 8 * (s.enq - s.freed) + 1 && FlushLoads(polling) >= 3
    ensures var f := Exec(Step(s, BeginFlush), draining + polling).flush;
            f.Flushed? && f.begin == s.enq
  {
    var b := Step(s, BeginFlush);
    ExecOne(s, BeginFlush);
    ReachableExec(s, [BeginFlush]);
    FlushReturns(b, draining, polling);
    FlushBegan(b, draining + polling, s.enq);
  }

  lemma {:induction false} FreedGrows(s: State, schedule: seq<Action>)
    ensures s.freed <= Exec(s, schedule).freed
  {
    if schedule != [] {
      FreedGrows(s, schedule[..|schedule| - 1]);
      FreedGrowsStep(Exec(s, schedule[..|schedule| - 1]), schedule[|schedule| - 1]);
    }
  }

  lemma FreedGrowsStep(s: State, a: Action)
    ensures s.freed <= Step(s, a).freed
  {
    hide DrainStep, ProducerStep;
    match a
    case Producer(p, spurious) => ProducerFrame(s, p, spurious);
    case Drain => DrainFrame(s);
    case _ =>
  }

  lemma {:induction false} StaysStopped(s: State, schedule: seq<Action>)
    requires !s.running
    ensures !Exec(s, schedule).running
  {
    if schedule != [] {
      StaysStopped(s, schedule[..|schedule| - 1]);
      StepFlags(Exec(s, schedule[..|schedule| - 1]), schedule[|schedule| - 1]);
    }
  }

  /** An orderly shutdown, from start to end: the producers have stopped, `Flush` is
      called and gets the steps it needs, the destructor clears the running flag, and
      the drain thread takes three more steps (`leaving`). It has left, every accepted
      record is in the sink, and what was logged and what was dropped add up to what
      was produced. */
  lemma ShutdownLosesNothing(s: State, draining: seq<Action>, polling: seq<Action>, leaving: seq<Action>)
    requires Run(s) && AllIdle(s) && s.running && !s.drain.Exited?
    requires s.flush.NotFlushing? || s.flush.Flushed?
    requires NoLog(draining) && Stop !in draining && BeginFlush !in draining
    requires NoLog(polling) && BeginFlush !in polling && NoLog(leaving)
    requires DrainCount(draining) >= 8 * (s.enq - s.freed) + 1 && FlushLoads(polling) >= 3
    requires DrainCount(leaving) >= 3
    ensures var u := Exec(Step(s, BeginFlush), draining + polling);
            var w := Exec(u, [Stop] + leaving);
            && u.flush.Flushed? && w.drain.Exited? && !w.running
            && w.claims == s.claims && u.sink == w.sink == Claimed(s, |s.claims|)
            && |w.sink| + w.drops == |w.callers|
  {
    hide Exec;
    var b := Step(s, BeginFlush);
    var u := Exec(b, draining + polling);
    FlushCallReturns(s, draining, polling);
    FlushThenDestroy(s, draining + polling, [Stop] + leaving);
    FlushEnds(s, draining + polling);
    QuietStepIdle(s, BeginFlush);
    QuietExec(b, draining + polling);
    StaysFreed(s, draining, polling);
    LeavesAfterStop(u, leaving);
  }

  /** After the drain steps of a flush everything is freed, and stays so. */
  lemma StaysFreed(s: State, draining: seq<Action>, polling: seq<Action>)
    requires Run(s) && AllIdle(s) && s.running && !s.drain.Exited?
    requires s.flush.NotFlushing? || s.flush.Flushed?
    requires NoLog(draining) && Stop !in draining && NoLog(polling)
    requires DrainCount(draining) >= 8 * (s.enq - s.freed) + 1
    ensures Exec(Step(s, BeginFlush), draining + polling).freed >= s.enq
  {
    hide Exec;
    var b := Step(s, BeginFlush);
    ExecOne(s, BeginFlush);
    ReachableExec(s, [BeginFlush]);
    QuiescentDrain(b, draining);
    QuietExec(b, draining);
    ExecAppend(b, draining, polling);
    FreedGrows(Exec(b, draining), polling);
  }

  lemma LeavesAfterStop(u: State, leaving: seq<Action>)
    requires Run(u) && AllIdle(u) && u.freed >= u.enq && NoLog(leaving) && DrainCount(leaving) >= 3
    ensures var w := Exec(u, [Stop] + leaving); w.drain.Exited? && !w.running
  {
    hide Exec;
    var v := Step(u, Stop);
    RunInv(u);
    ExecOne(u, Stop);
    ReachableExec(u, [Stop]);
    RunInv(v);
    ExecAppend(u, [Stop], leaving);
    QuietExec(v, leaving);
    ExecCap(v, leaving);
    StaysStopped(v, leaving);
    Exits(v, leaving, Exec(v, leaving));
  }
}
