/** Where the multi-producer ring stops keeping its promises: concrete runs, and
    the exact conditions. */
module MpscLimits {
  import opened Words
  import opened Records
  import opened MpscModel
  import opened MpscInvariant
  import opened MpscHistory
  import opened MpscTheorems
  import opened MpscShutdown

  // ---- pieces of runs ----------------------------------------------------------

  lemma Take(s: State, a: Action)
    requires Reachable(s)
    ensures Reachable(Step(s, a))
  {
    ExecOne(s, a);
    ReachableExec(s, [a]);
  }

  lemma InitReachable(cap: nat)
    requires cap > 0
    ensures Reachable(Init(cap, 0))
  {
    assert Init(cap, 0) == Exec(Init(cap, 0), []);
  }

  function NewCall(s: State, rec: Record): Call {
    Call(|s.callers|, s.enq, rec, 0, 0)
  }

  /** The ring when an undisturbed call has just claimed its position ... */
  function Claiming(s: State, p: ProducerId, rec: Record): State {
    At(s.(enq := s.enq + 1, claims := s.claims + [Claim(p, NewCall(s, rec))], callers := s.callers + [p]),
       p, WriteTime(NewCall(s, rec), s.enq))
  }

  function Filled(f: Payload, r: Record): Payload {
    Payload(r.time, r.level, Overlay(f.msg, r.text), |r.text|)
  }

  /** ... and when the owner `p` of a claimed position has returned. */
  function Filling(s: State, p: ProducerId): State
    requires Pc(s, p).WriteTime?
  {
    var c, pos := Pc(s, p).call, Pc(s, p).pos;
    At(WithCell(s, pos, Cell(pos + 1, Filled(CellAt(s, pos).payload, c.rec))), p, Idle)
  }

  predicate Accepting(s: State, p: ProducerId, rec: Record) {
    && Pc(s, p).Idle? && |rec.text| <= MAX_MSG_LEN && s.minLevel <= rec.level
    && s.enq < TWO63 && CellAt(s, s.enq).sequence == s.enq
  }

  lemma ClaimsNext(s: State, p: ProducerId, rec: Record)
    requires Accepting(s, p, rec)
    ensures var a := Step(s, StartLog(p, rec));
            Step(Step(Step(a, Producer(p, false)), Producer(p, false)), Producer(p, false)) == Claiming(s, p, rec)
  {
    var c := NewCall(s, rec);
    var r := s.(callers := s.callers + [p]);
    assert Step(s, StartLog(p, rec)) == At(r, p, LoadPos(c));
    Repoint(r, p, LoadPos(c), LoadSeq(c, s.enq));
    assert Step(At(r, p, LoadPos(c)), Producer(p, false)) == At(r, p, LoadSeq(c, s.enq));
    Repoint(r, p, LoadSeq(c, s.enq), TryClaim(c, s.enq));
    assert Step(At(r, p, LoadSeq(c, s.enq)), Producer(p, false)) == At(r, p, TryClaim(c, s.enq));
    var r' := r.(enq := s.enq + 1, claims := s.claims + [Claim(p, c)]);
    Repoint(r', p, TryClaim(c, s.enq), WriteTime(c, s.enq));
  }

  lemma Repoint(s: State, p: ProducerId, from: ProducerPc, to: ProducerPc)
    ensures At(At(s, p, from), p, to) == At(s, p, to)
  {
    assert s.pcs[p := from][p := to] == s.pcs[p := to];
  }

  lemma ClaimingReachable(s: State, p: ProducerId, rec: Record)
    requires Reachable(s) && Accepting(s, p, rec)
    ensures Reachable(Claiming(s, p, rec))
  {
    ClaimsNext(s, p, rec);
    var a := Step(s, StartLog(p, rec));
    Take(s, StartLog(p, rec));
    Take(a, Producer(p, false));
    Take(Step(a, Producer(p, false)), Producer(p, false));
    Take(Step(Step(a, Producer(p, false)), Producer(p, false)), Producer(p, false));
  }

  lemma FillsCell(s: State, p: ProducerId)
    requires Pc(s, p).WriteTime? && Pc(s, p).pos < TWO63
    ensures var a := Producer(p, false);
            Step(Step(Step(Step(Step(s, a), a), a), a), a) == Filling(s, p)
  {
    var c, pos := Pc(s, p).call, Pc(s, p).pos;
    var f := CellAt(s, pos).payload;
    var f1 := f.(time := c.rec.time);
    var f2 := f1.(level := c.rec.level);
    var f3 := f2.(msg := Overlay(f.msg, c.rec.text));
    Rewrite(s, p, pos, f1, WriteLevel(c, pos), f2, WriteMsg(c, pos));
    Rewrite(s, p, pos, f2, WriteMsg(c, pos), f3, WriteLen(c, pos));
    Rewrite(s, p, pos, f3, WriteLen(c, pos), Filled(f, c.rec), Publish(c, pos));
    FillsLast(s, p, c, pos, Filled(f, c.rec));
  }

  lemma Rewrite(s: State, p: ProducerId, pos: nat, f: Payload, from: ProducerPc, g: Payload, to: ProducerPc)
    ensures At(WithPayload(At(WithPayload(s, pos, f), p, from), pos, g), p, to) == At(WithPayload(s, pos, g), p, to)
  {
    Repoint(s, p, from, to);
    assert WithPayload(WithPayload(s, pos, f), pos, g) == WithPayload(s, pos, g);
  }

  lemma FillsLast(s: State, p: ProducerId, c: Call, pos: nat, f: Payload)
    requires pos < TWO63
    ensures Step(At(WithPayload(s, pos, f), p, Publish(c, pos)), Producer(p, false)) ==
            At(WithCell(s, pos, Cell(pos + 1, f)), p, Idle)
  {
    Repoint(s, p, Publish(c, pos), Idle);
    var w := WithPayload(s, pos, f);
    assert WithCell(w, pos, Cell(pos + 1, f)) == WithCell(s, pos, Cell(pos + 1, f));
  }

  lemma FillingReachable(s: State, p: ProducerId)
    requires Reachable(s) && Pc(s, p).WriteTime? && Pc(s, p).pos < TWO63
    ensures Reachable(Filling(s, p))
  {
    FillsCell(s, p);
    var a := Producer(p, false);
    Take(s, a);
    Take(Step(s, a), a);
    Take(Step(Step(s, a), a), a);
    Take(Step(Step(Step(s, a), a), a), a);
    Take(Step(Step(Step(Step(s, a), a), a), a), a);
  }

  /** The ring after an undisturbed accepting call. */
  function Accepted(s: State, p: ProducerId, rec: Record): State {
    s.(enq := s.enq + 1,
       claims := s.claims + [Claim(p, NewCall(s, rec))],
       callers := s.callers + [p],
       cells := s.cells[Slot(s.cap, s.enq) := Cell(s.enq + 1, Filled(CellAt(s, s.enq).payload, rec))],
       pcs := s.pcs[p := Idle])
  }

  /** An undisturbed call on a ring with a free cell is accepted. */
  lemma AcceptedReachable(s: State, p: ProducerId, rec: Record)
    requires Reachable(s) && Accepting(s, p, rec)
    ensures Reachable(Accepted(s, p, rec))
  {
    ClaimingReachable(s, p, rec);
    FillingReachable(Claiming(s, p, rec), p);
    assert s.pcs[p := WriteTime(NewCall(s, rec), s.enq)][p := Idle] == s.pcs[p := Idle];
  }

  /** The drain thread's look at the ring. */
  function Looking(s: State): State {
    s.(drain := if CellAt(s, s.deq).sequence == s.deq + 1 then ReadTime(s.deq) else CheckRunning)
  }

  lemma LookingReachable(s: State)
    requires Reachable(s) && s.drain.LoadDequeue? && s.deq < TWO63 && CellAt(s, s.deq).sequence <= TWO63
    ensures Reachable(Looking(s))
  {
    Take(s, Drain);
    Take(Step(s, Drain), Drain);
  }

  /** The drain thread logs whatever the cell holds while it reads. */
  lemma ReadsReachable(s: State, rec: Record)
    requires Reachable(s) && s.drain.ReadTime? && Holds(CellAt(s, s.drain.at).payload, rec)
    ensures Reachable(s.(sink := s.sink + [rec], drain := Advance(s.drain.at)))
  {
    Take(s, Drain);
    Take(Step(s, Drain), Drain);
    Take(Step(Step(s, Drain), Drain), Drain);
    Take(Step(Step(Step(s, Drain), Drain), Drain), Drain);
    ReadsCell(s, rec);
  }

  lemma ReadsCell(s: State, rec: Record)
    requires s.drain.ReadTime? && Holds(CellAt(s, s.drain.at).payload, rec)
    ensures Step(Step(Step(Step(s, Drain), Drain), Drain), Drain) ==
            s.(sink := s.sink + [rec], drain := Advance(s.drain.at))
  {
  }

  // ---- capacity 1 ------------------------------------------------------------

  const FIRST := Record(1, 2, "first")
  const SECOND := Record(2, 2, "second")

  /** A first record is published and the drain thread has begun to read it. */
  function ReadingFirst(): State {
    Looking(Accepted(Init(1, 0), 0, FIRST))
  }

  /** A second producer has claimed the position after the first one's. */
  function Racing(): State {
    Claiming(ReadingFirst(), 1, SECOND)
  }

  lemma RacingReachable()
    ensures Reachable(Racing())
  {
    assert Slot(1, 0) == Slot(1, 1) == 0;
    InitReachable(1);
    AcceptedReachable(Init(1, 0), 0, FIRST);
    LookingReachable(Accepted(Init(1, 0), 0, FIRST));
    ClaimingReachable(ReadingFirst(), 1, SECOND);
  }

  /** With one cell, "published" for one position reads as "free" for the next: a
      second producer claims the cell that the drain thread is reading. */
  lemma CapacityOneRace()
    ensures Reachable(Racing()) && Racing().cap == 1 && Bounded(Racing()) && !Exclusive(Racing())
  {
    RacingReachable();
    assert Slot(1, 1) == Slot(1, 0) == 0;
    assert 1 in Racing().pcs;
  }

  /** The second producer returns, and the drain thread goes on reading. */
  function Torn(): State {
    var t := Filling(Racing(), 1);
    t.(sink := [SECOND], drain := Advance(0))
  }

  /** That race ends with the second record logged in the place of the first. */
  lemma CapacityOneTorn()
    ensures Reachable(Torn()) && Torn().cap == 1 && Bounded(Torn()) && !InClaimOrder(Torn())
    ensures Torn().sink == [SECOND] && |Torn().claims| == 2 && Torn().claims[0].call.rec == FIRST
  {
    assert Slot(1, 1) == Slot(1, 0) == 0;
    RacingReachable();
    FillingReachable(Racing(), 1);
    var t := Filling(Racing(), 1);
    assert Holds(CellAt(t, 0).payload, SECOND);
    ReadsReachable(t, SECOND);
    assert Torn() == t.(sink := t.sink + [SECOND], drain := Advance(t.drain.at));
    assert Torn().sink[0] != Torn().claims[0].call.rec;
  }

  /** The ring is safe in every run exactly when it has at least two cells. */
  lemma SafeIffTwoCells(cap: nat)
    requires cap > 0
    ensures (forall s: State :: Reachable(s) && s.cap == cap && Bounded(s) ==> Exclusive(s) && InClaimOrder(s))
            <==> cap >= 2
  {
    if cap >= 2 {
      forall s: State | Reachable(s) && s.cap == cap && Bounded(s)
        ensures Exclusive(s) && InClaimOrder(s)
      {
        ExclusiveAccess(s);
        SinkInClaimOrder(s);
      }
    } else {
      CapacityOneTorn();
    }
  }

  // ---- stopping without a flush ----------------------------------------------

  /** The drain thread finds the ring empty; a call then publishes `rec`; then the
      logger is stopped. */
  function PublishedLate(cap: nat, rec: Record): State
    requires cap > 0
  {
    Accepted(Looking(Init(cap, 0)), 0, rec).(running := false)
  }

  lemma PublishedLateReachable(cap: nat, rec: Record)
    requires 2 <= cap < TWO63 && |rec.text| <= MAX_MSG_LEN
    ensures Reachable(PublishedLate(cap, rec))
  {
    assert Slot(cap, 0) == 0;
    InitReachable(cap);
    LookingReachable(Init(cap, 0));
    AcceptedReachable(Looking(Init(cap, 0)), 0, rec);
    Take(Accepted(Looking(Init(cap, 0)), 0, rec), Stop);
  }

  /** A record published between the drain thread's look at the ring and its look
      at the running flag is lost when the logger is stopped in between, for
      every capacity and whatever happens next. */
  lemma UnflushedLoss(cap: nat, rec: Record, schedule: seq<Action>)
    requires 2 <= cap < TWO63 && |rec.text| <= MAX_MSG_LEN && Drain in schedule
    ensures var s := PublishedLate(cap, rec);
            && Run(s) && AllIdle(s) && |s.claims| == 1 && s.claims[0].call.rec == rec
            && Exec(s, schedule).drain.Exited? && Exec(s, schedule).sink == []
  {
    assert Slot(cap, 0) == 0;
    PublishedLateReachable(cap, rec);
    LeavesForGood(PublishedLate(cap, rec), schedule, Exec(PublishedLate(cap, rec), schedule));
  }

  // ---- retries -----------------------------------------------------------------

  /** The ring when the drain thread has logged the record at position `n` and handed
      its cell back. */
  function Consumed(s: State, n: nat, rec: Record): State {
    WithCell(s, n, CellAt(s, n).(sequence := n + s.cap))
      .(sink := s.sink + [rec], deq := n + 1, freed := s.freed + 1)
  }

  lemma ConsumedReachable(s: State, n: nat, rec: Record)
    requires Reachable(s) && s.drain.LoadDequeue? && s.deq == n && n + s.cap < TWO63
    requires CellAt(s, n).sequence == n + 1 && Holds(CellAt(s, n).payload, rec)
    ensures Reachable(Consumed(s, n, rec))
  {
    LookingReachable(s);
    var r := s.(drain := ReadTime(n));
    assert Looking(s) == r;
    ReadsReachable(r, rec);
    var e := s.(sink := s.sink + [rec], drain := Advance(n));
    assert e == r.(sink := r.sink + [rec], drain := Advance(n));
    AdvancesReachable(e, n);
  }

  lemma AdvancesReachable(s: State, n: nat)
    requires Reachable(s) && s.drain == Advance(n) && n + s.cap < TWO63
    ensures Reachable(WithCell(s, n, CellAt(s, n).(sequence := n + s.cap))
                        .(deq := n + 1, freed := s.freed + 1, drain := LoadDequeue))
  {
    var f := s.(deq := n + 1, drain := Free(n));
    assert Step(s, Drain) == f;
    Take(s, Drain);
    Take(f, Drain);
    FreesCell(f, n);
  }

  lemma FreesCell(s: State, n: nat)
    requires s.drain == Free(n) && n + s.cap < TWO63
    ensures Step(s, Drain) ==
            WithCell(s, n, CellAt(s, n).(sequence := n + s.cap)).(freed := s.freed + 1, drain := LoadDequeue)
  {
  }

  /** Producer 0 is in its first call. Producer 1, the only other one, has completed
      `n` calls since it began, all of them are delivered, and it is between calls.
      The call of producer 0 has retried once for each, and `k` times spuriously. */
  ghost predicate Starved(s: State, n: nat, k: nat) {
    && |s.claims| == s.enq == s.freed == s.deq == n && s.minLevel == 0
    && s.drain.LoadDequeue? && s.pcs.Keys <= {0, 1} && Pc(s, 1).Idle?
    && Pc(s, 0).LoadSeq? && Pc(s, 0).pos == n
    && Pc(s, 0).call.start == 0 && Pc(s, 0).call.retries == n + k && Pc(s, 0).call.spurious == k
    && forall q :: 0 <= q < n ==> s.claims[q].producer == 1
  }

  /** The other producer completes a call and the drain thread consumes it ... */
  lemma RoundOfOther(s: State, n: nat, k: nat) returns (t: State)
    requires Run(s) && Starved(s, n, k) && n + 1 + s.cap < TWO63
    ensures Reachable(t) && t.cap == s.cap && t.minLevel == 0 && t.drain.LoadDequeue?
    ensures |t.claims| == t.enq == t.freed == t.deq == n + 1 && CellAt(t, n).sequence == n + s.cap
    ensures t.pcs == s.pcs[1 := Idle]
    ensures forall q :: 0 <= q < n + 1 ==> t.claims[q].producer == 1
  {
    CellEncoding(s, n);
    AcceptedReachable(s, 1, FIRST);
    RunInv(s);
    var a := Accepted(s, 1, FIRST);
    assert CellAt(a, n) == Cell(n + 1, Filled(CellAt(s, n).payload, FIRST));
    ConsumedReachable(a, n, FIRST);
    t := Consumed(a, n, FIRST);
  }

  lemma LosesRace(s: State, p: ProducerId, c: Call, n: nat)
    requires Pc(s, p) == LoadSeq(c, n) && n < CellAt(s, n).sequence < TWO63
    ensures Step(s, Producer(p, false)) == At(s, p, Reload(c, n))
  {
  }

  lemma Reloads(s: State, p: ProducerId, c: Call, n: nat)
    requires Pc(s, p) == Reload(c, n)
    ensures Step(s, Producer(p, false)) == At(s, p, LoadSeq(c.(retries := c.retries + 1), s.enq))
  {
  }

  /** ... and the starved one, whose position is out of date now, goes round once. */
  lemma GoesRound(s: State, c: Call, n: nat)
    requires Reachable(s) && Pc(s, 0) == LoadSeq(c, n) && s.enq == n + 1 && n + s.cap < TWO63
    requires CellAt(s, n).sequence == n + s.cap
    ensures Reachable(At(s, 0, LoadSeq(c.(retries := c.retries + 1), n + 1)))
  {
    LosesRace(s, 0, c, n);
    Take(s, Producer(0, false));
    Reloads(At(s, 0, Reload(c, n)), 0, c, n);
    Take(At(s, 0, Reload(c, n)), Producer(0, false));
    Repoint(s, 0, Reload(c, n), LoadSeq(c.(retries := c.retries + 1), n + 1));
  }

  lemma GoRound(s: State, n: nat, k: nat) returns (u: State)
    requires Run(s) && Starved(s, n, k) && n + 1 + s.cap < TWO63
    ensures Run(u) && u.cap == s.cap && Starved(u, n + 1, k)
  {
    var c := Pc(s, 0).call;
    var t := RoundOfOther(s, n, k);
    GoesRound(t, c, n);
    u := At(t, 0, LoadSeq(c.(retries := c.retries + 1), n + 1));
  }

  lemma FindsFree(s: State, p: ProducerId, c: Call, n: nat)
    requires Pc(s, p) == LoadSeq(c, n) && CellAt(s, n).sequence == n
    ensures Step(s, Producer(p, false)) == At(s, p, TryClaim(c, n))
  {
  }

  lemma Fails(s: State, p: ProducerId, c: Call, n: nat)
    requires Pc(s, p) == TryClaim(c, n) && s.enq == n
    ensures Step(s, Producer(p, true)) ==
            At(s, p, LoadSeq(c.(retries := c.retries + 1, spurious := c.spurious + 1), n))
  {
  }

  /** The exchange of the starved call fails without cause. */
  lemma FailsSpuriously(s: State, c: Call, n: nat, d: Call)
    requires Reachable(s) && Pc(s, 0) == LoadSeq(c, n) && s.enq == n && CellAt(s, n).sequence == n
    requires d == c.(retries := c.retries + 1, spurious := c.spurious + 1)
    ensures Reachable(At(s, 0, LoadSeq(d, n)))
  {
    FindsFree(s, 0, c, n);
    Take(s, Producer(0, false));
    Fails(At(s, 0, TryClaim(c, n)), 0, c, n);
    Take(At(s, 0, TryClaim(c, n)), Producer(0, true));
    Repoint(s, 0, TryClaim(c, n), LoadSeq(d, n));
  }

  lemma GoRoundSpuriously(s: State, n: nat, k: nat) returns (u: State)
    requires Run(s) && Starved(s, n, k)
    ensures Run(u) && u.cap == s.cap && Starved(u, n, k + 1)
  {
    CellEncoding(s, n);
    var c := Pc(s, 0).call;
    var d := c.(retries := c.retries + 1, spurious := c.spurious + 1);
    FailsSpuriously(s, c, n, d);
    u := At(s, 0, LoadSeq(d, n));
  }

  lemma StarvationStart(cap: nat) returns (s: State)
    requires 2 <= cap < TWO63
    ensures Run(s) && s.cap == cap && Starved(s, 0, 0)
  {
    var i := Init(cap, 0);
    var c := NewCall(i, FIRST);
    InitReachable(cap);
    Take(i, StartLog(0, FIRST));
    Take(Step(i, StartLog(0, FIRST)), Producer(0, false));
    s := Step(Step(i, StartLog(0, FIRST)), Producer(0, false));
    assert Step(i, StartLog(0, FIRST)) == i.(callers := [0], pcs := map[0 := LoadPos(c)]);
    assert s == i.(callers := [0], pcs := map[0 := LoadSeq(c, 0)]);
  }

  /** No bound in the number of producers holds, in any ring: with two producers, and
      no spurious failure, a call can have retried `n` times for every `n` up to the
      limit on positions. */
  lemma {:induction false} RetriesExceedProducers(cap: nat, n: nat) returns (s: State)
    requires cap >= 2 && n + cap < TWO63
    ensures Run(s) && s.cap == cap && Starved(s, n, 0)
    decreases n
  {
    if n == 0 {
      s := StarvationStart(cap);
    } else {
      var r := RetriesExceedProducers(cap, n - 1);
      s := GoRound(r, n - 1, 0);
    }
  }

  lemma {:induction false} RetriesAreReached(cap: nat, n: nat, k: nat) returns (s: State)
    requires cap >= 2 && n + cap < TWO63
    ensures Run(s) && s.cap == cap && Starved(s, n, k)
    decreases k
  {
    if k == 0 {
      s := RetriesExceedProducers(cap, n);
    } else {
      var r := RetriesAreReached(cap, n, k - 1);
      s := GoRoundSpuriously(r, n, k - 1);
    }
  }

  /** `bound` limits the retries of every call that has met at most `others` claims
      by other producers and `spurious` spurious failures since it began. */
  ghost predicate RetryBound(cap: nat, others: nat, spurious: nat, bound: nat) {
    forall s: State, p: ProducerId ::
      Run(s) && s.cap == cap && Undecided(Pc(s, p))
      && ClaimsByOthers(s.claims, p, Pc(s, p).call.start, |s.claims|) <= others
      && Pc(s, p).call.spurious <= spurious
      ==> Pc(s, p).call.retries <= bound
  }

  /** When a bound on the retries holds: exactly when it allows for one retry per
      competing claim and one per spurious failure. */
  lemma RetryBoundIff(cap: nat, others: nat, spurious: nat, bound: nat)
    requires cap >= 2 && others + cap < TWO63
    ensures RetryBound(cap, others, spurious, bound) <==> others + spurious <= bound
  {
    if others + spurious <= bound {
      forall s: State, p: ProducerId | Run(s) && s.cap == cap && Undecided(Pc(s, p))
        ensures Pc(s, p).call.retries <=
                ClaimsByOthers(s.claims, p, Pc(s, p).call.start, |s.claims|) + Pc(s, p).call.spurious
      {
        RetriesBounded(s, p);
      }
    } else {
      var s := RetriesAreReached(cap, others, spurious);
      AllByOthers(s.claims, 0, 0, others);
      assert Undecided(Pc(s, 0)) && Pc(s, 0).call.retries == others + spurious;
    }
  }
}
