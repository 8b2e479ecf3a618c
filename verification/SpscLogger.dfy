/** `RtLogger` as its code is written, one shared access at a time, with the other
    threads free to act between any two. As in the multi-producer logger, ghost
    fields tie the object to a state of the transition system and to the schedule
    that led there. */
module SpscLogger {
  import opened Words
  import opened Records
  import opened SpscModel
  import opened SpscInvariant
  import opened SpscTheorems

  datatype Thread = ProducerThread | DrainThread

  predicate By(a: Action, t: Thread) {
    match t
    case ProducerThread => a.StartLog? || a.Producer?
    case DrainThread => a.Drain?
  }

  /** No action in `steps` is one of thread `me`. */
  predicate Quiet(me: Thread, steps: seq<Action>) {
    forall a :: a in steps ==> !By(a, me)
  }

  datatype Outcome = Filtered | Dropped | Accepted

  class RtLogger {
    const capacity: nat
    const mask: nat
    const ring: array<Payload>
    var minLevel: Level
    var head: Word
    var tail: Word
    var dropped: nat
    var running: bool
    var sink: seq<Record>

    ghost const bits: nat
    ghost const seed: Level
    ghost var st: State
    ghost var trace: seq<Action>

    /** The fields are those of a state that the schedule `trace` leads to. */
    ghost predicate Valid()
      reads this, ring
    {
      && bits <= 63 && capacity == Pow2(bits) && mask == capacity - 1
      && ring.Length == capacity == st.cap
      && ring[..] == st.ring
      && head == st.head && tail == st.tail && dropped == st.dropped
      && minLevel == st.minLevel && running == st.running && sink == st.sink
      && st == Exec(Init(capacity, seed), trace)
    }

    lemma ValidInv()
      requires Valid()
      ensures Run(st) && Inv(st)
    {
      assert PowerOfTwo(st.cap);
      RunInv(st);
    }

    constructor (ringCapacity: nat, level: Level)
      requires ringCapacity <= TWO63
      ensures Valid() && fresh(ring)
      ensures st == Init(capacity, level) && trace == []
      ensures running && minLevel == level && sink == [] && ring.Length == capacity
      ensures head == tail == 0 && dropped == 0
      ensures st.drain.OwnTail? && st.flush.NotFlushing? && st.pc.Idle?
      ensures capacity >= ringCapacity && (bits > 0 ==> Pow2(bits - 1) < ringCapacity)
    {
      var cap: nat;
      ghost var k: nat;
      cap, k := RoundUpCapacity(ringCapacity);
      capacity, bits := cap, k;
      mask := cap - 1;
      ring := new Payload[cap](_ => EmptySlot());
      minLevel, seed := level, level;
      head, tail, dropped := 0, 0, 0;
      running, sink := true, [];
      st, trace := Init(cap, level), [];
      new;
      assert ring[..] == st.ring;
    }

    // ---- the other threads -------------------------------------------------

    /** Whatever the other threads do between two accesses of thread `me`: any
        steps, among them at most `budget` publishes. */
    method OthersAct(ghost me: Thread, ghost budget: nat) returns (ghost left: nat)
      requires Valid()
      modifies this, ring
      ensures Valid()
      ensures |st.accepted| + left == old(|st.accepted|) + budget
      ensures old(trace) <= trace && Quiet(me, trace[|old(trace)|..])
    {
      hide Exec;
      left := budget;
    }

    /** The same, with what thread `me` can rely on. */
    method Interfere(ghost me: Thread, ghost budget: nat) returns (ghost left: nat)
      requires Valid()
      modifies this, ring
      ensures Valid()
      ensures |st.accepted| + left == old(|st.accepted|) + budget
      ensures Undisturbed(me, old(st), st)
      ensures old(trace) <= trace && Quiet(me, trace[|old(trace)|..])
    {
      ghost var s, before := st, trace;
      left := OthersAct(me, budget);
      ghost var steps := trace[|before|..];
      assert trace == before + steps;
      ExecAppend(Init(capacity, seed), before, steps);
      OthersLeave(me, s, steps);
    }

    ghost method Ghostly(a: Action)
      requires capacity > 0 && st == Exec(Init(capacity, seed), trace)
      modifies this`st, this`trace
      ensures st == Step(old(st), a) && trace == old(trace) + [a]
      ensures st == Exec(Init(capacity, seed), trace)
    {
      st, trace := Step(st, a), trace + [a];
    }

    /** Thread `me` made exactly the access `a`, after any steps of the others. */
    twostate predicate Accessed(me: Thread, a: Action)
      reads this
    {
      var n := |trace| - 1;
      |old(trace)| <= n && old(trace) <= trace && trace[n] == a && Quiet(me, trace[|old(trace)|..n])
    }

    method SetLevel(level: Level)
      requires Valid()
      modifies this
      ensures Valid() && st == Step(old(st), Action.SetLevel(level)) && trace == old(trace) + [Action.SetLevel(level)]
      ensures minLevel == level && st == old(st).(minLevel := level)
    {
      hide Exec;
      minLevel := level;
      Ghostly(Action.SetLevel(level));
    }

    /** What the destructor does before it waits for the drain thread. */
    method ClearRunning()
      requires Valid()
      modifies this
      ensures Valid() && trace == old(trace) + [Stop]
      ensures !running && st == old(st).(running := false)
    {
      hide Exec;
      running := false;
      Ghostly(Stop);
    }

    // ---- the accesses of the producer -----------------------------------------

    method Enter(rec: Record) returns (pass: bool)
      requires Valid() && st.pc.Idle? && |rec.text| <= MAX_MSG_LEN
      modifies this
      ensures Valid() && Accessed(ProducerThread, StartLog(rec))
      ensures pass == (rec.level >= old(minLevel))
      ensures st == if pass then old(st).(calls := old(st).calls + 1, pc := LoadHead(rec))
                    else old(st).(filtered := old(st).filtered + 1)
    {
      hide Exec;
      pass := !(rec.level < minLevel);
      Ghostly(StartLog(rec));
    }

    method LoadOwnHead(ghost budget: nat) returns (h: Word, ghost left: nat)
      requires Valid() && st.pc.LoadHead?
      modifies this, ring
      ensures Valid() && Accessed(ProducerThread, Producer)
      ensures Mine(old(st), st) && st.pc == LoadTail(old(st).pc.rec, h)
    {
      hide Exec;
      left := Interfere(ProducerThread, budget);
      h := head;
      Ghostly(Producer);
    }

    /** The test of the occupancy, with the tail as it is now. */
    method SeeRoom(h: Word, ghost budget: nat) returns (room: bool, ghost left: nat)
      requires Valid() && st.pc.LoadTail? && st.pc.head == h
      modifies this, ring
      ensures Valid() && Accessed(ProducerThread, Producer)
      ensures Mine(old(st), st)
      ensures st.pc == if room then WriteLevel(old(st).pc.rec, h) else CountDrop(old(st).pc.rec)
      ensures !room <==> |st.accepted| == st.freed + capacity
    {
      hide Exec;
      left := Interfere(ProducerThread, budget);
      ValidInv();
      LoadTailInv(st);
      room := !(Minus64(h, tail) >= capacity);
      Ghostly(Producer);
    }

    method FetchAddDropped(ghost budget: nat) returns (ghost left: nat)
      requires Valid() && st.pc.CountDrop?
      modifies this, ring
      ensures Valid() && Accessed(ProducerThread, Producer)
      ensures st.pc.Idle? && st.accepted == old(st).accepted && st.drops == old(st).drops + 1
    {
      hide Exec;
      left := Interfere(ProducerThread, budget);
      dropped := Wrap64(dropped + 1);
      Ghostly(Producer);
    }

    method StoreLevel(h: Word, level: Level, ghost budget: nat) returns (ghost left: nat)
      requires Valid() && st.pc.WriteLevel? && st.pc.head == h && st.pc.rec.level == level
      modifies this, ring
      ensures Valid() && Accessed(ProducerThread, Producer)
      ensures Mine(old(st), st) && st.pc == WriteTime(old(st).pc.rec, h)
    {
      hide Exec;
      left := Interfere(ProducerThread, budget);
      var i := Masked(capacity, h);
      ring[i] := ring[i].(level := level);
      Ghostly(Producer);
    }

    method StoreTime(h: Word, time: int, ghost budget: nat) returns (ghost left: nat)
      requires Valid() && st.pc.WriteTime? && st.pc.head == h && st.pc.rec.time == time
      modifies this, ring
      ensures Valid() && Accessed(ProducerThread, Producer)
      ensures Mine(old(st), st) && st.pc == WriteMsg(old(st).pc.rec, h)
    {
      hide Exec;
      left := Interfere(ProducerThread, budget);
      var i := Masked(capacity, h);
      ring[i] := ring[i].(time := time);
      Ghostly(Producer);
    }

    method StoreMsg(h: Word, text: string, ghost budget: nat) returns (ghost left: nat)
      requires Valid() && st.pc.WriteMsg? && st.pc.head == h && st.pc.rec.text == text
      modifies this, ring
      ensures Valid() && Accessed(ProducerThread, Producer)
      ensures Mine(old(st), st) && st.pc == WriteLen(old(st).pc.rec, h)
    {
      hide Exec;
      left := Interfere(ProducerThread, budget);
      var i := Masked(capacity, h);
      ring[i] := ring[i].(msg := Overlay(ring[i].msg, text));
      Ghostly(Producer);
    }

    method StoreLen(h: Word, len: nat, ghost budget: nat) returns (ghost left: nat)
      requires Valid() && st.pc.WriteLen? && st.pc.head == h && |st.pc.rec.text| == len
      modifies this, ring
      ensures Valid() && Accessed(ProducerThread, Producer)
      ensures Mine(old(st), st) && st.pc == Publish(old(st).pc.rec, h)
    {
      hide Exec;
      left := Interfere(ProducerThread, budget);
      var i := Masked(capacity, h);
      ring[i] := ring[i].(len := len);
      Ghostly(Producer);
    }

    method StoreHead(h: Word, ghost budget: nat) returns (ghost left: nat)
      requires Valid() && st.pc.Publish? && st.pc.head == h
      modifies this, ring
      ensures Valid() && Accessed(ProducerThread, Producer)
      ensures st.pc.Idle? && st.drops == old(st).drops
      ensures st.accepted == old(st).accepted + [old(st).pc.rec]
    {
      hide Exec;
      left := Interfere(ProducerThread, budget);
      head := Wrap64(h + 1);
      Ghostly(Producer);
    }

    /** `Log`: wait-free, whatever the other threads do between its accesses. It
        publishes exactly its own record or counts exactly one drop, and it does
        not drop if there was room when it began. */
    method Log(level: Level, time: int, f: Formatting) returns (outcome: Outcome)
      requires Valid() && st.pc.Idle?
      modifies this, ring
      ensures Valid() && st.pc.Idle? && old(trace) <= trace
      ensures outcome.Filtered? <==> level < old(minLevel)
      ensures outcome.Filtered? ==> st == old(st).(filtered := old(st).filtered + 1)
      ensures outcome.Dropped? ==> st.accepted == old(st).accepted && st.drops == old(st).drops + 1
      ensures outcome.Accepted? ==>
                && st.accepted == old(st).accepted + [Record(time, level, Rendered(f, MAX_MSG_LEN))]
                && st.accepted[|old(st).accepted|].text == (if f.Threw? then "[xmsigma: log format error]"
                                                            else if |f.output| <= 256 then f.output
                                                            else f.output[..256])
                && st.drops == old(st).drops
      ensures outcome.Dropped? ==> |old(st).accepted| >= old(st).freed + capacity
    {
      hide Exec;
      ghost var left := 0;
      ghost var s := st;
      ValidInv();
      var rec := Record(time, level, Rendered(f, MAX_MSG_LEN));
      RenderedInSlot(f);
      var pass := Enter(rec);
      if !pass {
        return Filtered;
      }
      var h, room;
      h, left := LoadOwnHead(left);
      room, left := SeeRoom(h, left);
      if !room {
        assert s.freed <= st.freed;
        left := FetchAddDropped(left);
        return Dropped;
      }
      left := Fill(h, rec);
      outcome := Accepted;
    }

    method Fill(h: Word, rec: Record) returns (ghost left: nat)
      requires Valid() && st.pc == WriteLevel(rec, h)
      modifies this, ring
      ensures Valid() && st.pc.Idle? && old(trace) <= trace
      ensures st.accepted == old(st).accepted + [rec] && st.drops == old(st).drops
    {
      hide Exec;
      left := StoreLevel(h, rec.level, 0);
      left := StoreTime(h, rec.time, left);
      left := StoreMsg(h, rec.text, left);
      left := StoreLen(h, |rec.text|, left);
      left := StoreHead(h, left);
    }

    // ---- the drain thread ---------------------------------------------------------

    method LoadOwnTail(ghost budget: nat) returns (t: Word, ghost left: nat)
      requires Valid() && st.drain.OwnTail?
      modifies this, ring
      ensures Valid() && Accessed(DrainThread, Drain)
      ensures DrainMove(old(st), st) && |st.accepted| + left == old(|st.accepted|) + budget
      ensures st.drain == SeeHead(t)
    {
      hide Exec;
      left := Interfere(DrainThread, budget);
      t := tail;
      Ghostly(Drain);
    }

    method SeeRecord(t: Word, ghost budget: nat) returns (ready: bool, ghost left: nat)
      requires Valid() && st.drain == SeeHead(t)
      modifies this, ring
      ensures Valid() && Accessed(DrainThread, Drain)
      ensures DrainMove(old(st), st) && |st.accepted| + left == old(|st.accepted|) + budget
      ensures st.drain == if ready then ReadTime(t) else CheckRunning
      ensures !ready <==> |st.sink| == |st.accepted|
    {
      hide Exec;
      left := Interfere(DrainThread, budget);
      ValidInv();
      Occupancy(st);
      ready := !(t == head);
      Ghostly(Drain);
    }

    method LoadTime(t: Word, ghost budget: nat) returns (time: int, ghost left: nat)
      requires Valid() && st.drain == ReadTime(t)
      modifies this, ring
      ensures Valid() && Accessed(DrainThread, Drain)
      ensures DrainMove(old(st), st) && |st.accepted| + left == old(|st.accepted|) + budget
      ensures st.drain == ReadLevel(t, time)
    {
      hide Exec;
      left := Interfere(DrainThread, budget);
      time := ring[Masked(capacity, t)].time;
      Ghostly(Drain);
    }

    method LoadLevel(t: Word, ghost time: int, ghost budget: nat) returns (level: Level, ghost left: nat)
      requires Valid() && st.drain == ReadLevel(t, time)
      modifies this, ring
      ensures Valid() && Accessed(DrainThread, Drain)
      ensures DrainMove(old(st), st) && |st.accepted| + left == old(|st.accepted|) + budget
      ensures st.drain == ReadLen(t, time, level)
    {
      hide Exec;
      left := Interfere(DrainThread, budget);
      level := ring[Masked(capacity, t)].level;
      Ghostly(Drain);
    }

    method LoadLen(t: Word, ghost time: int, ghost level: Level, ghost budget: nat)
      returns (len: nat, ghost left: nat)
      requires Valid() && st.drain == ReadLen(t, time, level)
      modifies this, ring
      ensures Valid() && Accessed(DrainThread, Drain)
      ensures DrainMove(old(st), st) && |st.accepted| + left == old(|st.accepted|) + budget
      ensures st.drain == Emit(t, time, level, len)
    {
      hide Exec;
      left := Interfere(DrainThread, budget);
      len := ring[Masked(capacity, t)].len;
      Ghostly(Drain);
    }

    method SinkLog(t: Word, time: int, level: Level, len: nat, ghost budget: nat) returns (ghost left: nat)
      requires Valid() && st.drain == Emit(t, time, level, len)
      modifies this, ring
      ensures Valid() && Accessed(DrainThread, Drain)
      ensures LogMove(old(st), st) && |st.accepted| + left == old(|st.accepted|) + budget
      ensures st.drain == Advance(t)
    {
      hide Exec;
      left := Interfere(DrainThread, budget);
      sink := sink + [Record(time, level, TextOf(ring[Masked(capacity, t)].msg, len))];
      Ghostly(Drain);
    }

    method StoreTail(t: Word, ghost budget: nat) returns (ghost left: nat)
      requires Valid() && st.drain == Advance(t)
      modifies this, ring
      ensures Valid() && Accessed(DrainThread, Drain)
      ensures DrainMove(old(st), st) && |st.accepted| + left == old(|st.accepted|) + budget
      ensures st.drain == OwnTail
    {
      hide Exec;
      left := Interfere(DrainThread, budget);
      tail := Wrap64(t + 1);
      Ghostly(Drain);
    }

    method LoadRunning(ghost budget: nat) returns (on: bool, ghost left: nat)
      requires Valid() && st.drain.CheckRunning?
      modifies this, ring
      ensures Valid() && Accessed(DrainThread, Drain)
      ensures DrainMove(old(st), st) && |st.accepted| + left == old(|st.accepted|) + budget
      ensures on == st.running && st.drain == if on then OwnTail else Exited
    {
      hide Exec;
      left := Interfere(DrainThread, budget);
      on := running;
      Ghostly(Drain);
    }

    /** The pause of an empty round. After `naps` of them the destructor has cleared
        the running flag. */
    method Sleep(naps: nat) returns (naps': nat)
      requires Valid()
      modifies this
      ensures Valid() && old(trace) <= trace
      ensures DrainMove(old(st), st) && st.drain == old(st).drain && st.accepted == old(st).accepted
      ensures naps' == if naps > 0 then naps - 1 else 0
      ensures naps == 0 ==> !st.running
    {
      hide Exec;
      if naps > 0 {
        naps' := naps - 1;
      } else {
        naps' := 0;
        ClearRunning();
      }
    }

    method DrainRecord(t: Word, ghost budget: nat) returns (ghost left: nat)
      requires Valid() && st.drain == ReadTime(t)
      modifies this, ring
      ensures Valid() && old(trace) <= trace
      ensures LogMove(old(st), st) && |st.accepted| + left == old(|st.accepted|) + budget
      ensures st.drain == OwnTail
    {
      hide Exec;
      var time, level, len;
      time, left := LoadTime(t, budget);
      level, left := LoadLevel(t, time, left);
      len, left := LoadLen(t, time, level, left);
      left := SinkLog(t, time, level, len, left);
      left := StoreTail(t, left);
    }

    /** `DrainLoop`, with the other threads acting between any two of its accesses.
        It leaves only when the logger has been stopped, having logged a prefix of
        the published records that includes all those published when it began. */
    method DrainLoop(naps: nat, ghost budget: nat) returns (ghost left: nat)
      requires Valid() && st.drain.OwnTail?
      modifies this, ring
      ensures Valid() && old(trace) <= trace
      ensures st.drain.Exited? && !st.running
      ensures old(st).accepted <= sink <= st.accepted
    {
      hide Exec;
      left := budget;
      var rest := naps;
      ValidInv();
      ghost var total := |st.accepted| + budget;
      while true
        invariant Valid() && st.drain.OwnTail? && old(trace) <= trace
        invariant |st.accepted| + left == total && |st.sink| <= total
        invariant old(st).accepted <= st.accepted
        decreases total - |st.sink|, rest, st.running
      {
        var t: Word;
        t, left := LoadOwnTail(left);
        var ready: bool;
        ready, left := SeeRecord(t, left);
        if ready {
          left := DrainRecord(t, left);
          ValidInv();
        } else {
          var on: bool;
          on, left := LoadRunning(left);
          if !on {
            break;
          }
          rest := Sleep(rest);
        }
      }
      ValidInv();
    }
  }

  // ---- facts about undisturbed threads --------------------------------------------

  /** What thread `me` can rely on across steps of the others. */
  ghost predicate Undisturbed(me: Thread, s: State, t: State) {
    && t.cap == s.cap && s.accepted <= t.accepted && s.freed <= t.freed
    && (!s.running ==> !t.running)
    && (me.ProducerThread? ==> t.pc == s.pc && t.accepted == s.accepted && t.drops == s.drops && t.head == s.head)
    && (me.DrainThread? ==> t.drain == s.drain && t.sink == s.sink)
  }

  lemma ProducerLeaves(s: State)
    ensures Undisturbed(DrainThread, s, ProducerStep(s))
  {
    hide ProducerStep;
    ProducerGrows(s);
  }

  lemma DrainLeaves(s: State)
    ensures Undisturbed(ProducerThread, s, DrainStep(s))
  {
    hide DrainStep;
    DrainGrows(s);
  }

  lemma StepLeaves(me: Thread, s: State, a: Action)
    requires !By(a, me)
    ensures Undisturbed(me, s, Step(s, a))
  {
    match a
    case Producer => ProducerLeaves(s);
    case Drain => DrainLeaves(s);
    case _ =>
  }

  /** No schedule of the other threads disturbs thread `me`. */
  lemma {:induction false} OthersLeave(me: Thread, s: State, steps: seq<Action>)
    requires Quiet(me, steps)
    ensures Undisturbed(me, s, Exec(s, steps))
  {
    if steps != [] {
      var front, last := steps[..|steps| - 1], steps[|steps| - 1];
      OthersLeave(me, s, front);
      StepLeaves(me, Exec(s, front), last);
      assert Exec(s, steps) == Step(Exec(s, front), last);
    }
  }

  /** An access of the producer that neither publishes nor drops. */
  ghost predicate Mine(s: State, t: State) {
    t.accepted == s.accepted && t.drops == s.drops && s.freed <= t.freed
  }

  ghost predicate DrainMove(s: State, t: State) {
    t.sink == s.sink && s.accepted <= t.accepted && (!s.running ==> !t.running)
  }

  ghost predicate LogMove(s: State, t: State) {
    |t.sink| == |s.sink| + 1 && s.accepted <= t.accepted && (!s.running ==> !t.running)
  }
}
