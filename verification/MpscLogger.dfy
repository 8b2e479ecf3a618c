/** `MpscRtLogger` as its code is written: fields updated in place, one shared
    access at a time, with the other threads free to act between any two.

    The ghost fields `st` and `trace` record which state of the transition system
    the object is in and which schedule led there. Every access is shown to be
    the step of that system which its thread takes there, so whatever holds in
    every run of the system holds of the object. */
module MpscLogger {
  import opened Words
  import opened Records
  import opened MpscModel
  import opened MpscInvariant
  import opened MpscHistory
  import opened MpscTheorems

  datatype Thread = ProducerThread(p: ProducerId) | DrainThread

  predicate By(a: Action, t: Thread) {
    match t
    case ProducerThread(p) => (a.StartLog? && a.p == p) || (a.Producer? && a.p == p)
    case DrainThread => a.Drain?
  }

  datatype Outcome = Filtered | Dropped | Accepted(at: nat)

  class MpscRtLogger {
    const capacity: nat
    const mask: nat
    const cells: array<Cell>
    var minLevel: Level
    var enqueuePos: nat
    var dequeuePos: nat
    var dropped: nat
    var running: bool
    var sink: seq<Record>

    ghost const bits: nat
    ghost const seed: Level
    ghost var st: State
    ghost var trace: seq<Action>

    /** The fields are those of a state that the schedule `trace` leads to. */
    ghost predicate Wired()
      reads this, cells
    {
      && capacity == Pow2(bits) && mask == capacity - 1
      && cells.Length == capacity == st.cap
      && cells[..] == st.cells
      && enqueuePos == st.enq && dequeuePos == st.deq && dropped == st.dropped
      && minLevel == st.minLevel && running == st.running && sink == st.sink
      && st == Exec(Init(capacity, seed), trace)
    }

    /** Wired, with a capacity and few enough claims for the encoding to work. */
    ghost predicate Valid()
      reads this, cells
    {
      Wired() && capacity >= 2 && Bounded(st)
    }

    lemma ValidRun()
      requires Valid()
      ensures Run(st) && Inv(st) && st.enq == |st.claims|
    {
      RunInv(st);
    }

    // ---- construction ----------------------------------------------------

    constructor (ringCapacity: nat, level: Level)
      requires ringCapacity <= TWO63
      ensures Wired() && Bounded(st) && fresh(cells)
      ensures st == Init(capacity, level) && trace == []
      ensures running && minLevel == level && sink == []
      ensures enqueuePos == dequeuePos == dropped == 0
      ensures st.drain.LoadDequeue? && st.flush.NotFlushing? && st.pcs == map[]
      ensures cells.Length == capacity && forall i :: 0 <= i < capacity ==> cells[i].sequence == i
      ensures capacity >= ringCapacity && (forall k: nat :: k < bits ==> Pow2(k) < ringCapacity)
      ensures capacity >= 2 <==> ringCapacity >= 2
    {
      var cap: nat;
      ghost var k: nat;
      cap, k := RoundUpCapacity(ringCapacity);
      capacity, bits := cap, k;
      mask := cap - 1;
      cells := new Cell[cap](_ => EmptyCell(0));
      minLevel, seed := level, level;
      enqueuePos, dequeuePos, dropped := 0, 0, 0;
      running, sink := true, [];
      st, trace := Init(cap, level), [];
      new;
      for i := 0 to capacity
        invariant st == Init(capacity, level) && trace == []
        invariant enqueuePos == dequeuePos == dropped == 0 && minLevel == level && running && sink == []
        invariant forall j :: 0 <= j < i ==> cells[j] == EmptyCell(j)
        invariant forall j :: i <= j < capacity ==> cells[j] == EmptyCell(0)
      {
        cells[i] := cells[i].(sequence := i);
      }
      SmallerPowers(bits, ringCapacity);
      Pow2Word();
      if bits < 63 { Pow2Monotone(bits, 63); }
      assert cells[..] == st.cells;
    }

    // ---- the other threads -------------------------------------------------

    /** Whatever the other threads do between two accesses of thread `me`. Callers
        learn only the contract: the others may take any number of steps, which
        include at most `budget` claims. (Not moving at all is one way to meet it.) */
    method OthersAct(ghost me: Thread, ghost budget: nat) returns (ghost left: nat)
      requires Valid() && |st.claims| + budget + capacity < TWO63
      modifies this, cells
      ensures Valid()
      ensures |st.claims| + left == old(|st.claims|) + budget
      ensures old(trace) <= trace && Quiet(me, trace[|old(trace)|..])
    {
      hide Exec;
      left := budget;
    }

    /** The same, with what thread `me` can rely on: that follows from the
        transition system. */
    method Interfere(ghost me: Thread, ghost budget: nat) returns (ghost left: nat)
      requires Valid() && |st.claims| + budget + capacity < TWO63
      modifies this, cells
      ensures Valid()
      ensures |st.claims| + left == old(|st.claims|) + budget
      ensures Undisturbed(me, old(st), st)
      ensures old(trace) <= trace && Quiet(me, trace[|old(trace)|..])
    {
      ghost var s, before := st, trace;
      ValidRun();
      left := OthersAct(me, budget);
      ghost var steps := trace[|before|..];
      assert trace == before + steps;
      ExecAppend(Init(capacity, seed), before, steps);
      OthersLeave(me, s, steps);
    }

    method SetLevel(level: Level)
      requires Valid()
      modifies this
      ensures Valid() && st == Step(old(st), Action.SetLevel(level)) && trace == old(trace) + [Action.SetLevel(level)]
      ensures minLevel == level && st == old(st).(minLevel := level)
    {
      hide Exec;
      minLevel := level;
      Ghostly(Action.SetLevel(level));
    }

    /** What the destructor does before it waits for the drain thread. */
    method ClearRunning()
      requires Valid()
      modifies this
      ensures Valid() && trace == old(trace) + [Stop]
      ensures !running && st == old(st).(running := false)
    {
      hide Exec;
      running := false;
      Ghostly(Stop);
    }

    /** The ghost half of an access. */
    ghost method Ghostly(a: Action)
      requires capacity > 0 && st == Exec(Init(capacity, seed), trace)
      modifies this`st, this`trace
      ensures st == Step(old(st), a) && trace == old(trace) + [a]
      ensures st == Exec(Init(capacity, seed), trace)
    {
      st, trace := Step(st, a), trace + [a];
    }

    /** Thread `me` made exactly the access `a`, after any steps of the others. */
    twostate predicate Accessed(me: Thread, a: Action)
      reads this
    {
      var n := |trace| - 1;
      |old(trace)| <= n && old(trace) <= trace && trace[n] == a && Quiet(me, trace[|old(trace)|..n])
    }

    // ---- the accesses of a producer ------------------------------------------

    /** `min_level_.load`: the level filter at the top of `Log`. */
    method Enter(ghost p: ProducerId, rec: Record) returns (pass: bool)
      requires Valid() && Pc(st, p).Idle? && |rec.text| <= MAX_MSG_LEN
      modifies this
      ensures Valid() && Accessed(ProducerThread(p), StartLog(p, rec))
      ensures st.claims == old(st).claims && st.drops == old(st).drops
      ensures pass == (rec.level >= old(minLevel))
      ensures pass ==> Pc(st, p) == LoadPos(Call(|old(st).callers|, old(enqueuePos), rec, 0, 0))
      ensures !pass ==> st == old(st).(filtered := old(st).filtered + 1)
    {
      hide Exec;
      pass := !(rec.level < minLevel);
      Ghostly(StartLog(p, rec));
    }

    method LoadEnqueuePos(ghost p: ProducerId, ghost budget: nat) returns (pos: nat, ghost left: nat)
      requires Valid() && (Pc(st, p).LoadPos? || Pc(st, p).Reload?)
      requires |st.claims| + budget + capacity < TWO63
      modifies this, cells
      ensures Valid() && Accessed(ProducerThread(p), Producer(p, false))
      ensures LoopMove(p, old(st), st) && |st.claims| + left == old(|st.claims|) + budget
      ensures Pc(st, p).LoadSeq? && Pc(st, p).pos == pos == |st.claims|
      ensures old(Pc(st, p)).Reload? ==> pos > old(Pc(st, p)).pos
    {
      hide Exec;
      left := Interfere(ProducerThread(p), budget);
      pos := EnqueuePosNow(p);
    }

    method EnqueuePosNow(ghost p: ProducerId) returns (pos: nat)
      requires Valid() && (Pc(st, p).LoadPos? || Pc(st, p).Reload?)
      modifies this
      ensures Valid() && trace == old(trace) + [Producer(p, false)]
      ensures st.claims == old(st).claims && st.drops == old(st).drops
      ensures Pc(st, p).LoadSeq? && Pc(st, p).pos == pos == |st.claims|
      ensures Pc(st, p).call.rec == old(Pc(st, p)).call.rec
      ensures old(Pc(st, p)).Reload? ==> pos > old(Pc(st, p)).pos
    {
      hide Exec;
      ValidRun();
      pos := enqueuePos;
      Ghostly(Producer(p, false));
    }

    method LoadSequence(ghost p: ProducerId, pos: nat, ghost budget: nat) returns (diff: int, ghost left: nat)
      requires Valid() && Pc(st, p).LoadSeq? && Pc(st, p).pos == pos
      requires |st.claims| + budget + capacity < TWO63
      modifies this, cells
      ensures Valid() && Accessed(ProducerThread(p), Producer(p, false))
      ensures LoopMove(p, old(st), st) && |st.claims| + left == old(|st.claims|) + budget
      ensures Pc(st, p).pos == pos
      ensures if diff == 0 then Pc(st, p).TryClaim? else if diff < 0 then Pc(st, p).CountDrop? else Pc(st, p).Reload?
    {
      hide Exec;
      left := Interfere(ProducerThread(p), budget);
      MaskIsSlot(bits, pos);
      var seqno := cells[BitAnd(pos, mask)].sequence;
      diff := AsInt64(seqno) - AsInt64(pos);
      assert cells[BitAnd(pos, mask)] == CellAt(st, pos);
      Ghostly(Producer(p, false));
    }

    /** `compare_exchange_weak`, which may fail `patience` more times without cause. */
    method CompareExchangeWeak(ghost p: ProducerId, pos: nat, patience: nat, ghost budget: nat)
      returns (ok: bool, pos': nat, patience': nat, ghost left: nat)
      requires Valid() && Pc(st, p).TryClaim? && Pc(st, p).pos == pos
      requires |st.claims| + budget + capacity < TWO63
      modifies this, cells
      ensures Valid()
      ensures Accessed(ProducerThread(p), Producer(p, false)) || Accessed(ProducerThread(p), Producer(p, true))
      ensures ok ==> ClaimMove(p, pos, old(st), st) && pos' == pos && patience' == patience
      ensures !ok ==> LoopMove(p, old(st), st) && Pc(st, p).LoadSeq? && Pc(st, p).pos == pos' == |st.claims|
      ensures !ok ==> if patience' == patience then pos' > pos else pos' == pos && patience' + 1 == patience
      ensures |st.claims| + left == old(|st.claims|) + budget + if ok then 1 else 0
    {
      hide Exec;
      left := Interfere(ProducerThread(p), budget);
      ok, pos', patience' := ExchangeNow(p, pos, patience);
    }

    method ExchangeNow(ghost p: ProducerId, pos: nat, patience: nat) returns (ok: bool, pos': nat, patience': nat)
      requires Valid() && Pc(st, p).TryClaim? && Pc(st, p).pos == pos && |st.claims| + capacity < TWO63
      modifies this
      ensures Valid() && (trace == old(trace) + [Producer(p, false)] || trace == old(trace) + [Producer(p, true)])
      ensures ok ==> ClaimMove(p, pos, old(st), st) && pos' == pos && patience' == patience
                     && |st.claims| == |old(st).claims| + 1
      ensures !ok ==> LoopMove(p, old(st), st) && Pc(st, p).LoadSeq? && Pc(st, p).pos == pos' == |st.claims|
                      && |st.claims| == |old(st).claims|
      ensures !ok ==> if patience' == patience then pos' > pos else pos' == pos && patience' + 1 == patience
    {
      hide Exec;
      ValidRun();
      patience' := patience;
      var fails: bool := *;
      if patience > 0 && fails && enqueuePos == pos {
        patience' := patience - 1;
        ok, pos' := false, enqueuePos;
        Ghostly(Producer(p, true));
      } else if enqueuePos == pos {
        enqueuePos := Wrap64(pos + 1);
        ok, pos' := true, pos;
        Ghostly(Producer(p, false));
      } else {
        ok, pos' := false, enqueuePos;
        Ghostly(Producer(p, false));
      }
    }

    method FetchAddDropped(ghost p: ProducerId, ghost budget: nat) returns (ghost left: nat)
      requires Valid() && Pc(st, p).CountDrop?
      requires |st.claims| + budget + capacity < TWO63
      modifies this, cells
      ensures Valid() && Accessed(ProducerThread(p), Producer(p, false))
      ensures Pc(st, p).Idle? && st.drops > old(st).drops
      ensures old(st).claims <= st.claims && NoneBy(st, p, |old(st).claims|)
      ensures |st.claims| + left == old(|st.claims|) + budget
    {
      hide Exec;
      left := Interfere(ProducerThread(p), budget);
      DropNow(p);
    }

    lemma DroppedIsWord()
      requires Valid()
      ensures dropped < TWO64
    {
      ValidRun();
      Conservation(st);
    }

    method DropNow(ghost p: ProducerId)
      requires Valid() && Pc(st, p).CountDrop?
      modifies this
      ensures Valid() && trace == old(trace) + [Producer(p, false)]
      ensures Pc(st, p).Idle? && st.drops == old(st).drops + 1 && st.claims == old(st).claims
      ensures dropped == (old(dropped) + 1) % TWO64
    {
      hide Exec;
      DroppedIsWord();
      dropped := Wrap64(dropped + 1);
      Ghostly(Producer(p, false));
    }

    /** The stores of an accepting call, in order: time, level, message, length ... */
    method StoreTime(ghost p: ProducerId, pos: nat, time: int, ghost budget: nat) returns (ghost left: nat)
      requires Valid() && Pc(st, p).WriteTime? && Pc(st, p).pos == pos && Pc(st, p).call.rec.time == time
      requires |st.claims| + budget + capacity < TWO63
      modifies this, cells
      ensures Valid() && Accessed(ProducerThread(p), Producer(p, false))
      ensures FillMove(p, WriteLevel(old(Pc(st, p)).call, pos), old(st), st)
      ensures |st.claims| + left == old(|st.claims|) + budget
    {
      hide Exec;
      left := Interfere(ProducerThread(p), budget);
      MaskIsSlot(bits, pos);
      var i := BitAnd(pos, mask);
      cells[i] := cells[i].(payload := cells[i].payload.(time := time));
      Ghostly(Producer(p, false));
    }

    method StoreLevel(ghost p: ProducerId, pos: nat, level: Level, ghost budget: nat) returns (ghost left: nat)
      requires Valid() && Pc(st, p).WriteLevel? && Pc(st, p).pos == pos && Pc(st, p).call.rec.level == level
      requires |st.claims| + budget + capacity < TWO63
      modifies this, cells
      ensures Valid() && Accessed(ProducerThread(p), Producer(p, false))
      ensures FillMove(p, WriteMsg(old(Pc(st, p)).call, pos), old(st), st)
      ensures |st.claims| + left == old(|st.claims|) + budget
    {
      hide Exec;
      left := Interfere(ProducerThread(p), budget);
      MaskIsSlot(bits, pos);
      var i := BitAnd(pos, mask);
      cells[i] := cells[i].(payload := cells[i].payload.(level := level));
      Ghostly(Producer(p, false));
    }

    method StoreMsg(ghost p: ProducerId, pos: nat, text: string, ghost budget: nat) returns (ghost left: nat)
      requires Valid() && Pc(st, p).WriteMsg? && Pc(st, p).pos == pos && Pc(st, p).call.rec.text == text
      requires |st.claims| + budget + capacity < TWO63
      modifies this, cells
      ensures Valid() && Accessed(ProducerThread(p), Producer(p, false))
      ensures FillMove(p, WriteLen(old(Pc(st, p)).call, pos), old(st), st)
      ensures |st.claims| + left == old(|st.claims|) + budget
    {
      hide Exec;
      left := Interfere(ProducerThread(p), budget);
      MaskIsSlot(bits, pos);
      var i := BitAnd(pos, mask);
      cells[i] := cells[i].(payload := cells[i].payload.(msg := Overlay(cells[i].payload.msg, text)));
      Ghostly(Producer(p, false));
    }

    method StoreLen(ghost p: ProducerId, pos: nat, len: nat, ghost budget: nat) returns (ghost left: nat)
      requires Valid() && Pc(st, p).WriteLen? && Pc(st, p).pos == pos && |Pc(st, p).call.rec.text| == len
      requires |st.claims| + budget + capacity < TWO63
      modifies this, cells
      ensures Valid() && Accessed(ProducerThread(p), Producer(p, false))
      ensures FillMove(p, Publish(old(Pc(st, p)).call, pos), old(st), st)
      ensures |st.claims| + left == old(|st.claims|) + budget
    {
      hide Exec;
      left := Interfere(ProducerThread(p), budget);
      MaskIsSlot(bits, pos);
      var i := BitAnd(pos, mask);
      cells[i] := cells[i].(payload := cells[i].payload.(len := len));
      Ghostly(Producer(p, false));
    }

    /** ... and the publishing store of the sequence number. */
    method StoreSequence(ghost p: ProducerId, pos: nat, ghost budget: nat) returns (ghost left: nat)
      requires Valid() && Pc(st, p).Publish? && Pc(st, p).pos == pos
      requires |st.claims| + budget + capacity < TWO63
      modifies this, cells
      ensures Valid() && Accessed(ProducerThread(p), Producer(p, false))
      ensures FillMove(p, Idle, old(st), st)
      ensures |st.claims| + left == old(|st.claims|) + budget
    {
      hide Exec;
      left := Interfere(ProducerThread(p), budget);
      MaskIsSlot(bits, pos);
      var i := BitAnd(pos, mask);
      cells[i] := cells[i].(sequence := Wrap64(pos + 1));
      Ghostly(Producer(p, false));
    }

    // ---- Log -------------------------------------------------------------------

    /** `Log`, with the other threads acting between any two of its accesses.

        It returns whatever they do, as long as they make finitely many claims
        (`budget`) and the exchange fails finitely often without cause
        (`patience`); together these bound the rounds of its loop. It claims at
        most one position, at or after those claimed when it began, and publishes
        exactly its own record there; it drops only by counting a drop. */
    method Log(ghost p: ProducerId, level: Level, time: int, f: Formatting, ghost budget: nat, patience: nat)
      returns (outcome: Outcome, ghost left: nat, ghost rounds: nat)
      requires Valid() && Pc(st, p).Idle?
      requires |st.claims| + budget + capacity + 1 < TWO63
      modifies this, cells
      ensures Valid() && Pc(st, p).Idle?
      ensures old(trace) <= trace && old(st).claims <= st.claims
      ensures outcome.Filtered? <==> level < old(minLevel)
      ensures outcome.Filtered? ==> st == old(st).(filtered := old(st).filtered + 1)
      ensures outcome.Dropped? ==> st.drops > old(st).drops && NoneBy(st, p, |old(st).claims|)
      ensures outcome.Accepted? ==>
                && |old(st).claims| <= outcome.at < |st.claims|
                && Published(st, outcome.at)
                && st.claims[outcome.at].producer == p
                && st.claims[outcome.at].call.rec == Record(time, level, Rendered(f, MAX_MSG_LEN))
                && st.claims[outcome.at].call.rec.text == (if f.Threw? then "[xmsigma: log format error]"
                                                           else if |f.output| <= 256 then f.output
                                                           else f.output[..256])
                && forall q :: |old(st).claims| <= q < |st.claims| && q != outcome.at ==> st.claims[q].producer != p
      ensures !outcome.Filtered? ==>
                |st.claims| + left == old(|st.claims|) + budget + if outcome.Accepted? then 1 else 0
      ensures rounds <= budget + patience + 1
    {
      hide Exec;
      left, rounds := budget, 0;
      var rec := Record(time, level, Rendered(f, MAX_MSG_LEN));
      RenderedInSlot(f);
      var pass := Enter(p, rec);
      if !pass {
        return Filtered, left, rounds;
      }
      var claimed: bool;
      var pos: nat;
      claimed, pos, left, rounds := ClaimLoop(p, rec, budget, patience);
      if !claimed {
        return Dropped, left, rounds;
      }
      left := Fill(p, pos, rec, left);
      outcome := Accepted(pos);
    }

    /** The claim loop of `Log`: a position of its own, or a counted drop. */
    method ClaimLoop(ghost p: ProducerId, ghost rec: Record, ghost budget: nat, patience: nat)
      returns (claimed: bool, pos: nat, ghost left: nat, ghost rounds: nat)
      requires Valid() && Pc(st, p).LoadPos? && Pc(st, p).call.rec == rec
      requires |st.claims| + budget + capacity + 1 < TWO63
      modifies this, cells
      ensures Valid() && old(trace) <= trace && old(st).claims <= st.claims
      ensures |st.claims| + left == old(|st.claims|) + budget + if claimed then 1 else 0
      ensures rounds <= budget + patience + 1
      ensures claimed ==>
                && |old(st).claims| <= pos == |st.claims| - 1
                && Pc(st, p).WriteTime? && Pc(st, p).pos == pos && Pc(st, p).call.rec == rec
                && st.claims[pos] == Claim(p, Pc(st, p).call)
                && forall q {:trigger st.claims[q]} :: |old(st).claims| <= q < pos ==> st.claims[q].producer != p
      ensures !claimed ==> Pc(st, p).Idle? && st.drops > old(st).drops && NoneBy(st, p, |old(st).claims|)
    {
      hide Exec;
      rounds := 0;
      pos, left := LoadEnqueuePos(p, budget);
      ghost var total := |old(st).claims| + budget;
      var tries := patience;
      while true
        invariant Valid() && Pc(st, p).LoadSeq? && Pc(st, p).pos == pos && Pc(st, p).call.rec == rec
        invariant |old(st).claims| <= pos <= |st.claims| && |st.claims| + left == total
        invariant old(st).claims <= st.claims && NoneBy(st, p, |old(st).claims|)
        invariant old(trace) <= trace && old(st).drops <= st.drops
        invariant rounds + (total - pos) + tries <= budget + patience
        decreases total - pos + tries
      {
        rounds := rounds + 1;
        var diff: int;
        diff, left := LoadSequence(p, pos, left);
        if diff == 0 {
          var ok: bool;
          ok, pos, tries, left := CompareExchangeWeak(p, pos, tries, left);
          if ok {
            return true, pos, left, rounds;
          }
        } else if diff < 0 {
          left := FetchAddDropped(p, left);
          return false, pos, left, rounds;
        } else {
          pos, left := LoadEnqueuePos(p, left);
        }
      }
    }

    method Fill(ghost p: ProducerId, pos: nat, rec: Record, ghost budget: nat) returns (ghost left: nat)
      requires Valid() && Pc(st, p).WriteTime? && Pc(st, p).pos == pos && Pc(st, p).call.rec == rec
      requires |st.claims| + budget + capacity < TWO63
      modifies this, cells
      ensures Valid()
      ensures old(trace) <= trace && FillMove(p, Idle, old(st), st)
      ensures |st.claims| + left == old(|st.claims|) + budget
    {
      hide Exec;
      left := StoreTime(p, pos, rec.time, budget);
      left := StoreLevel(p, pos, rec.level, left);
      left := StoreMsg(p, pos, rec.text, left);
      left := StoreLen(p, pos, |rec.text|, left);
      left := StoreSequence(p, pos, left);
    }

    // ---- the drain thread --------------------------------------------------------

    method LoadDequeuePos(ghost budget: nat) returns (pos: nat, ghost left: nat)
      requires Valid() && st.drain.LoadDequeue? && |st.claims| + budget + capacity < TWO63
      modifies this, cells
      ensures Valid() && Accessed(DrainThread, Drain)
      ensures DrainMove(old(st), st) && |st.claims| + left == old(|st.claims|) + budget
      ensures st.drain == LoadCell(pos) && pos == |st.sink|
    {
      hide Exec;
      left := Interfere(DrainThread, budget);
      ValidRun();
      pos := dequeuePos;
      Ghostly(Drain);
    }

    method LoadPublished(pos: nat, ghost budget: nat) returns (ready: bool, ghost left: nat)
      requires Valid() && st.drain == LoadCell(pos) && |st.claims| + budget + capacity < TWO63
      modifies this, cells
      ensures Valid() && Accessed(DrainThread, Drain)
      ensures DrainMove(old(st), st) && |st.claims| + left == old(|st.claims|) + budget
      ensures ready == Published(st, pos)
      ensures st.drain == if ready then ReadTime(pos) else CheckRunning
    {
      hide Exec;
      left := Interfere(DrainThread, budget);
      ready := LookNow(pos);
    }

    /** The drain thread's test of the cell is the test of whether it is published. */
    lemma PublishedTest(pos: nat)
      requires Valid() && st.drain == LoadCell(pos)
      ensures BitAnd(pos, mask) < cells.Length
      ensures cells[BitAnd(pos, mask)] == CellAt(st, pos)
      ensures Diff(CellAt(st, pos).sequence, Wrap64(pos + 1)) == 0 <==> Published(st, pos)
    {
      hide Exec;
      ValidRun();
      CellToRead(st);
      MaskIsSlot(bits, pos);
    }

    method LookNow(pos: nat) returns (ready: bool)
      requires Valid() && st.drain == LoadCell(pos)
      modifies this
      ensures Valid() && trace == old(trace) + [Drain]
      ensures st == old(st).(drain := if ready then ReadTime(pos) else CheckRunning)
      ensures ready == Published(st, pos)
    {
      hide Exec;
      PublishedTest(pos);
      var seqno := cells[BitAnd(pos, mask)].sequence;
      var diff := AsInt64(seqno) - AsInt64(Wrap64(pos + 1));
      ready := diff == 0;
      Ghostly(Drain);
    }

    method LoadTime(pos: nat, ghost budget: nat) returns (time: int, ghost left: nat)
      requires Valid() && st.drain == ReadTime(pos) && |st.claims| + budget + capacity < TWO63
      modifies this, cells
      ensures Valid() && Accessed(DrainThread, Drain)
      ensures DrainMove(old(st), st) && |st.claims| + left == old(|st.claims|) + budget
      ensures st.drain == ReadLevel(pos, time)
    {
      hide Exec;
      left := Interfere(DrainThread, budget);
      MaskIsSlot(bits, pos);
      time := cells[BitAnd(pos, mask)].payload.time;
      Ghostly(Drain);
    }

    method LoadLevel(pos: nat, ghost time: int, ghost budget: nat) returns (level: Level, ghost left: nat)
      requires Valid() && st.drain == ReadLevel(pos, time) && |st.claims| + budget + capacity < TWO63
      modifies this, cells
      ensures Valid() && Accessed(DrainThread, Drain)
      ensures DrainMove(old(st), st) && |st.claims| + left == old(|st.claims|) + budget
      ensures st.drain == ReadLen(pos, time, level)
    {
      hide Exec;
      left := Interfere(DrainThread, budget);
      MaskIsSlot(bits, pos);
      level := cells[BitAnd(pos, mask)].payload.level;
      Ghostly(Drain);
    }

    method LoadLen(pos: nat, ghost time: int, ghost level: Level, ghost budget: nat)
      returns (len: nat, ghost left: nat)
      requires Valid() && st.drain == ReadLen(pos, time, level) && |st.claims| + budget + capacity < TWO63
      modifies this, cells
      ensures Valid() && Accessed(DrainThread, Drain)
      ensures DrainMove(old(st), st) && |st.claims| + left == old(|st.claims|) + budget
      ensures st.drain == Emit(pos, time, level, len)
    {
      hide Exec;
      left := Interfere(DrainThread, budget);
      MaskIsSlot(bits, pos);
      len := cells[BitAnd(pos, mask)].payload.len;
      Ghostly(Drain);
    }

    /** `sink_logger_->log` with the record assembled from the cell. */
    method SinkLog(pos: nat, time: int, level: Level, len: nat, ghost budget: nat) returns (ghost left: nat)
      requires Valid() && st.drain == Emit(pos, time, level, len) && |st.claims| + budget + capacity < TWO63
      modifies this, cells
      ensures Valid() && Accessed(DrainThread, Drain)
      ensures LogMove(old(st), st) && |st.claims| + left == old(|st.claims|) + budget
      ensures st.drain == Advance(pos)
    {
      hide Exec;
      left := Interfere(DrainThread, budget);
      MaskIsSlot(bits, pos);
      sink := sink + [Record(time, level, TextOf(cells[BitAnd(pos, mask)].payload.msg, len))];
      Ghostly(Drain);
    }

    method StoreDequeuePos(pos: nat, ghost budget: nat) returns (ghost left: nat)
      requires Valid() && st.drain == Advance(pos) && |st.claims| + budget + capacity < TWO63
      modifies this, cells
      ensures Valid() && Accessed(DrainThread, Drain)
      ensures DrainMove(old(st), st) && |st.claims| + left == old(|st.claims|) + budget
      ensures st.drain == Free(pos)
    {
      hide Exec;
      left := Interfere(DrainThread, budget);
      dequeuePos := Wrap64(pos + 1);
      Ghostly(Drain);
    }

    method StoreFree(pos: nat, ghost budget: nat) returns (ghost left: nat)
      requires Valid() && st.drain == Free(pos) && |st.claims| + budget + capacity < TWO63
      modifies this, cells
      ensures Valid() && Accessed(DrainThread, Drain)
      ensures DrainMove(old(st), st) && |st.claims| + left == old(|st.claims|) + budget
      ensures st.drain == LoadDequeue
    {
      hide Exec;
      left := Interfere(DrainThread, budget);
      MaskIsSlot(bits, pos);
      var i := BitAnd(pos, mask);
      cells[i] := cells[i].(sequence := Wrap64(pos + mask + 1));
      Ghostly(Drain);
    }

    method LoadRunning(ghost budget: nat) returns (on: bool, ghost left: nat)
      requires Valid() && st.drain.CheckRunning? && |st.claims| + budget + capacity < TWO63
      modifies this, cells
      ensures Valid() && Accessed(DrainThread, Drain)
      ensures DrainMove(old(st), st) && |st.claims| + left == old(|st.claims|) + budget
      ensures on == st.running && st.drain == if on then LoadDequeue else Exited
    {
      hide Exec;
      left := Interfere(DrainThread, budget);
      on := running;
      Ghostly(Drain);
    }

    /** The pause of an empty round. After `naps` of them the destructor has cleared
        the running flag. */
    method Sleep(naps: nat) returns (naps': nat)
      requires Valid()
      modifies this
      ensures Valid() && old(trace) <= trace
      ensures DrainMove(old(st), st) && st.drain == old(st).drain && st.claims == old(st).claims
      ensures naps' == if naps > 0 then naps - 1 else 0
      ensures naps == 0 ==> !st.running
    {
      hide Exec;
      if naps > 0 {
        naps' := naps - 1;
      } else {
        naps' := 0;
        ClearRunning();
      }
    }

    /** One record, from its cell to the sink, and the cell handed back. */
    method DrainRecord(pos: nat, ghost budget: nat) returns (ghost left: nat)
      requires Valid() && st.drain == ReadTime(pos) && |st.claims| + budget + capacity < TWO63
      modifies this, cells
      ensures Valid() && old(trace) <= trace
      ensures LogMove(old(st), st) && |st.claims| + left == old(|st.claims|) + budget
      ensures st.drain == LoadDequeue
    {
      hide Exec;
      var time, level, len;
      time, left := LoadTime(pos, budget);
      level, left := LoadLevel(pos, time, left);
      len, left := LoadLen(pos, time, level, left);
      left := SinkLog(pos, time, level, len, left);
      left := StoreDequeuePos(pos, left);
      left := StoreFree(pos, left);
    }

    lemma SinkWithinClaims()
      requires Valid()
      ensures |st.sink| <= |st.claims|
    {
      hide Exec;
      ValidRun();
    }

    /** `DrainLoop`, with the other threads acting between any two of its accesses.
        It leaves only when the logger has been stopped, having logged in claim
        order, and no fewer records than were ready in sequence when it began. */
    method DrainLoop(naps: nat, ghost budget: nat) returns (ghost left: nat)
      requires Valid() && st.drain.LoadDequeue? && |st.claims| + budget + capacity < TWO63
      modifies this, cells
      ensures Valid() && old(trace) <= trace
      ensures st.drain.Exited? && !st.running
      ensures old(sink) <= sink && sink == st.sink && InClaimOrder(st)
      ensures forall n: nat :: n <= |old(st).claims| && ReadyUpTo(old(st), n) ==> n <= |sink|
    {
      hide Exec;
      left := budget;
      var rest := naps;
      ValidRun();
      ghost var total := |st.claims| + budget;
      while true
        invariant Valid() && st.drain.LoadDequeue? && old(trace) <= trace
        invariant |st.claims| + left == total && |st.sink| <= total
        invariant old(st).sink <= st.sink && PublishedStays(old(st), st)
        invariant old(st).freed <= |st.sink|
        decreases total - |st.sink|, rest, st.running
      {
        var pos: nat;
        pos, left := LoadDequeuePos(left);
        var ready: bool;
        ready, left := LoadPublished(pos, left);
        if ready {
          left := DrainRecord(pos, left);
          SinkWithinClaims();
        } else {
          ghost var seen := st;
          var on: bool;
          on, left := LoadRunning(left);
          if !on {
            ReadyAll(old(st), seen, pos);
            break;
          }
          rest := Sleep(rest);
        }
      }
      ClaimOrder();
    }

    lemma ClaimOrder()
      requires Valid()
      ensures InClaimOrder(st) && sink == st.sink
    {
      ValidRun();
      SinkInClaimOrder(st);
    }
  }

  // ---- facts about undisturbed threads -----------------------------------------

  /** What thread `me` can rely on across steps of the others. */
  ghost predicate Undisturbed(me: Thread, s: State, t: State) {
    && t.cap == s.cap && s.claims <= t.claims && s.drops <= t.drops
    && PublishedStays(s, t)
    && (!s.running ==> !t.running)
    && (me.ProducerThread? ==> Pc(t, me.p) == Pc(s, me.p) && NoneBy(t, me.p, |s.claims|))
    && (me.DrainThread? ==> t.drain == s.drain && t.sink == s.sink)
  }

  lemma ClaimLeaves(me: Thread, s: State, p: ProducerId)
    requires Inv(s) && me != ProducerThread(p) && Pc(s, p).TryClaim? && s.enq == Pc(s, p).pos
    ensures Undisturbed(me, s, LoopStep(s, p, false))
  {
    ClaimKeepsPublished(s, p);
  }

  lemma MoveLeaves(me: Thread, s: State, t: State, p: ProducerId)
    requires me != ProducerThread(p) && Moved(s, t, p)
    requires t.cap == s.cap && s.drops <= t.drops && t.running == s.running && t.drain == s.drain && t.sink == s.sink
    requires Owning(Pc(t, p)) ==> Owning(Pc(s, p)) && Pc(t, p).pos == Pc(s, p).pos
    ensures Undisturbed(me, s, t)
  {
    MoveKeepsPublished(s, t, p);
  }

  lemma LoopLeaves(me: Thread, s: State, p: ProducerId, spurious: bool)
    requires me != ProducerThread(p) && !Pc(s, p).Idle? && !Owning(Pc(s, p))
    requires Pc(s, p).TryClaim? ==> spurious || s.enq != Pc(s, p).pos
    ensures Undisturbed(me, s, LoopStep(s, p, spurious))
  {
    LoopMoves(s, p, spurious);
    MoveLeaves(me, s, LoopStep(s, p, spurious), p);
  }

  lemma FillLeaves(me: Thread, s: State, p: ProducerId)
    requires me != ProducerThread(p) && Owning(Pc(s, p))
    ensures Undisturbed(me, s, FillStep(s, p))
  {
    FillMoves(s, p);
    MoveLeaves(me, s, FillStep(s, p), p);
  }

  lemma EnterLeaves(me: Thread, s: State, p: ProducerId, rec: Record)
    requires me != ProducerThread(p)
    ensures Undisturbed(me, s, LogStep(s, p, rec))
  {
    LogKeepsPublished(s, p, rec);
  }

  lemma QuietLeaves(me: Thread, s: State, a: Action)
    requires !a.StartLog? && !a.Producer? && !By(a, me)
    ensures Undisturbed(me, s, Step(s, a))
  {
    QuietStep(s, a);
    MoveKeepsPublished(s, Step(s, a), 0);
  }

  lemma StepLeaves(me: Thread, s: State, a: Action)
    requires Inv(s) && !By(a, me)
    ensures Undisturbed(me, s, Step(s, a))
  {
    match a
    case StartLog(p, rec) => EnterLeaves(me, s, p, rec);
    case Producer(p, spurious) =>
      if Owning(Pc(s, p)) {
        FillLeaves(me, s, p);
      } else if Pc(s, p).TryClaim? && s.enq == Pc(s, p).pos && !spurious {
        ClaimLeaves(me, s, p);
      } else if !Pc(s, p).Idle? {
        LoopLeaves(me, s, p, spurious);
      }
    case _ => QuietLeaves(me, s, a);
  }

  /** No schedule of the other threads disturbs thread `me`. */
  lemma {:induction false} OthersLeave(me: Thread, s: State, steps: seq<Action>)
    requires Inv(s) && Bounded(Exec(s, steps)) && Quiet(me, steps)
    ensures Undisturbed(me, s, Exec(s, steps))
  {
    if steps != [] {
      var front, last := steps[..|steps| - 1], steps[|steps| - 1];
      StepBounded(Exec(s, front), last);
      OthersLeave(me, s, front);
      ExecInv(s, front);
      StepLeaves(me, Exec(s, front), last);
      UndisturbedTransitive(me, s, Exec(s, front), Exec(s, steps));
    }
  }

  lemma UndisturbedTransitive(me: Thread, s: State, t: State, u: State)
    requires Undisturbed(me, s, t) && Undisturbed(me, t, u)
    ensures Undisturbed(me, s, u)
  {
  }

  /** An access of the drain thread that logs nothing, after steps of others. */
  ghost predicate DrainMove(s: State, t: State) {
    t.sink == s.sink && PublishedStays(s, t) && (!s.running ==> !t.running)
  }

  /** Accesses of the drain thread that log one record. */
  ghost predicate LogMove(s: State, t: State) {
    && |t.sink| == |s.sink| + 1 && s.sink <= t.sink
    && PublishedStays(s, t) && (!s.running ==> !t.running)
  }

  /** A drain thread that finds position `pos` not published has consumed whatever
      was ready in sequence before. */
  lemma ReadyAll(s: State, t: State, pos: nat)
    requires PublishedStays(s, t) && !Published(t, pos) && s.freed <= pos
    ensures forall n: nat :: ReadyUpTo(s, n) ==> n <= pos
  {
    assert !Published(s, pos);
  }

  /** An access of `p` in its claim loop that claims nothing, after steps of others. */
  ghost predicate LoopMove(p: ProducerId, s: State, t: State) {
    && s.claims <= t.claims && NoneBy(t, p, |s.claims|) && s.drops <= t.drops
    && !Pc(s, p).Idle? && !Pc(t, p).Idle? && Pc(t, p).call.rec == Pc(s, p).call.rec
  }

  /** An access of `p` that claims position `pos`, after steps of others. */
  ghost predicate ClaimMove(p: ProducerId, pos: nat, s: State, t: State) {
    && s.claims <= t.claims && s.drops <= t.drops
    && |s.claims| <= pos == |t.claims| - 1
    && (forall q {:trigger t.claims[q]} :: |s.claims| <= q < pos ==> t.claims[q].producer != p)
    && !Pc(s, p).Idle? && Pc(t, p) == WriteTime(Pc(s, p).call, pos)
    && t.claims[pos] == Claim(p, Pc(s, p).call)
  }

  /** A store of `p` into the cell it owns, after steps of others. */
  ghost predicate FillMove(p: ProducerId, pc: ProducerPc, s: State, t: State) {
    s.claims <= t.claims && NoneBy(t, p, |s.claims|) && Pc(t, p) == pc
  }

  /** No action in `steps` is one of thread `me`. */
  predicate Quiet(me: Thread, steps: seq<Action>) {
    forall a :: a in steps ==> !By(a, me)
  }

  /** No claim at or after position `from` is by `p`. */
  ghost predicate NoneBy(s: State, p: ProducerId, from: nat) {
    forall q {:trigger s.claims[q]} :: from <= q < |s.claims| ==> s.claims[q].producer != p
  }

  lemma {:induction false} SmallerPowers(bits: nat, request: nat)
    requires bits > 0 ==> Pow2(bits - 1) < request
    ensures forall k: nat :: k < bits ==> Pow2(k) < request
  {
    forall k: nat | k < bits
      ensures Pow2(k) < request
    {
      if k < bits - 1 { Pow2Monotone(k, bits - 1); }
    }
  }
}
