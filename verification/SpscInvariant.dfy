/** The invariant of the single-producer ring, for every power-of-two capacity
    including 1 and across the wrap of its 64-bit indices. */
module SpscInvariant {
  import opened Words
  import opened Records
  import opened SpscModel

  ghost predicate PowerOfTwo(cap: nat) {
    exists k: nat :: k <= 63 && cap == Pow2(k)
  }

  predicate Writing(pc: ProducerPc) {
    pc.WriteLevel? || pc.WriteTime? || pc.WriteMsg? || pc.WriteLen? || pc.Publish?
  }

  predicate Reading(d: DrainPc) {
    d.ReadTime? || d.ReadLevel? || d.ReadLen? || d.Emit?
  }

  ghost predicate WrittenSoFar(pc: ProducerPc, f: Payload)
    requires Writing(pc)
  {
    && (!pc.WriteLevel? ==> f.level == pc.rec.level)
    && (pc.WriteMsg? || pc.WriteLen? || pc.Publish? ==> f.time == pc.rec.time)
    && (pc.WriteLen? || pc.Publish? ==> TextOf(f.msg, |pc.rec.text|) == pc.rec.text)
    && (pc.Publish? ==> f.len == |pc.rec.text|)
  }

  /** The slot of the record with running number `q`. */
  function Nth(s: State, q: nat): Payload {
    s.ring[Slot(s.cap, q)]
  }

  ghost predicate RingOk(s: State) {
    && PowerOfTwo(s.cap)
    && s.freed <= |s.accepted| <= s.freed + s.cap
    && s.head == |s.accepted| % TWO64 && s.tail == s.freed % TWO64
    && (forall q: nat {:trigger Slot(s.cap, q)} :: s.freed <= q < |s.accepted| ==>
          Holds(s.ring[Slot(s.cap, q)], s.accepted[q]))
    && (forall i :: 0 <= i < s.cap ==> |s.ring[i].msg| == MAX_MSG_LEN)
  }

  ghost predicate ProducerOk(s: State) {
    && (!s.pc.Idle? ==> |s.pc.rec.text| <= MAX_MSG_LEN)
    && (s.pc.LoadTail? || Writing(s.pc) ==> s.pc.head == s.head)
    && (Writing(s.pc) ==> |s.accepted| < s.freed + s.cap && WrittenSoFar(s.pc, Nth(s, |s.accepted|)))
  }

  ghost predicate DrainOk(s: State) {
    var d := s.drain;
    && (d.SeeHead? || d.Advance? || Reading(d) ==> d.at == s.tail)
    && (Reading(d) || d.Advance? ==> s.freed < |s.accepted|)
    && (d.ReadLevel? || d.ReadLen? || d.Emit? ==> d.time == s.accepted[s.freed].time)
    && (d.ReadLen? || d.Emit? ==> d.level == s.accepted[s.freed].level)
    && (d.Emit? ==> d.len == |s.accepted[s.freed].text|)
    && |s.sink| == (if d.Advance? then s.freed + 1 else s.freed)
    && s.sink <= s.accepted
  }

  ghost predicate FlushOk(s: State) {
    match s.flush
    case NotFlushing => true
    case Polling(b) => b <= |s.accepted|
    case SawTail(b, w, t) => w == t % TWO64 && t <= s.freed && b <= t + s.cap && b <= |s.accepted|
    case SawHead(b, w, h) => w == h % TWO64 && b <= h <= |s.accepted|
    case Flushed(b) => b <= s.freed
  }

  predicate CountOk(s: State) {
    && s.calls == |s.accepted| + s.drops + (if s.pc.Idle? then 0 else 1)
    && s.rejected == s.drops + (if s.pc.CountDrop? then 1 else 0)
    && s.dropped == s.drops % TWO64
  }

  ghost predicate Inv(s: State) {
    RingOk(s) && ProducerOk(s) && DrainOk(s) && FlushOk(s) && CountOk(s)
  }

  // ---- words -----------------------------------------------------------------

  lemma MaskedIsSlot(s: State, q: nat)
    requires PowerOfTwo(s.cap)
    ensures Masked(s.cap, q % TWO64) == Slot(s.cap, q)
  {
    var k: nat :| k <= 63 && s.cap == Pow2(k);
    MaskOfWrapped(k, q);
  }

  lemma CapBound(cap: nat)
    requires PowerOfTwo(cap)
    ensures 1 <= cap <= TWO63
  {
    var k: nat :| k <= 63 && cap == Pow2(k);
    Pow2Word();
    if k < 63 { Pow2Monotone(k, 63); }
  }

  /** Two counts with the same word are equal or at least `2^64` apart. */
  lemma SameWord(x: nat, y: nat)
    requires x % TWO64 == y % TWO64 && x <= y
    ensures x == y || x + TWO64 <= y
  {
  }

  /** The occupancy that either side computes from two index words is exact. */
  lemma Occupancy(s: State)
    requires RingOk(s)
    ensures Minus64(s.head, s.tail) == |s.accepted| - s.freed
    ensures s.head == s.tail <==> |s.accepted| == s.freed
  {
    CapBound(s.cap);
    WrappedDistance(s.freed, |s.accepted|);
    if s.head == s.tail { SameWord(s.freed, |s.accepted|); }
  }

  // ---- preservation -------------------------------------------------------------

  lemma InitInv(cap: nat, minLevel: Level)
    requires PowerOfTwo(cap)
    ensures Inv(Init(cap, minLevel))
  {
  }

  /** The producer writes only the slot after the last published record. */
  lemma WriteSlot(s: State, f: Payload, pc: ProducerPc)
    requires Inv(s) && Writing(s.pc) && Writing(pc) && pc.rec == s.pc.rec && pc.head == s.pc.head
    requires WrittenSoFar(pc, f) && |f.msg| == MAX_MSG_LEN
    ensures Inv(WithSlot(s, s.pc.head, f).(pc := pc))
  {
    MaskedIsSlot(s, |s.accepted|);
    WindowDistinct(s.cap, s.freed, |s.accepted|);
    var t := WithSlot(s, s.pc.head, f).(pc := pc);
    assert t.ring == s.ring[Slot(s.cap, |s.accepted|) := f];
    assert RingOk(t);
  }

  lemma WriteInv(s: State)
    requires Inv(s) && Writing(s.pc) && !s.pc.Publish?
    ensures Inv(ProducerStep(s))
  {
    MaskedIsSlot(s, |s.accepted|);
    var t := ProducerStep(s);
    WriteSlot(s, SlotAt(t, s.pc.head), t.pc);
  }

  lemma PublishInv(s: State)
    requires Inv(s) && s.pc.Publish?
    ensures Inv(ProducerStep(s))
  {
    WrapStep(|s.accepted|);
    var t := ProducerStep(s);
    assert t.accepted == s.accepted + [s.pc.rec];
    assert Slot(s.cap, |s.accepted|) < s.cap;
    assert Holds(s.ring[Slot(s.cap, |s.accepted|)], s.pc.rec);
    assert RingOk(t);
  }

  lemma LoadTailInv(s: State)
    requires Inv(s) && s.pc.LoadTail?
    ensures Inv(ProducerStep(s))
    ensures ProducerStep(s).pc.CountDrop? <==> |s.accepted| == s.freed + s.cap
  {
    Occupancy(s);
    assert RingOk(ProducerStep(s));
  }

  lemma ProducerInv(s: State)
    requires Inv(s)
    ensures Inv(ProducerStep(s))
  {
    if s.pc.LoadTail? {
      LoadTailInv(s);
    } else if s.pc.Publish? {
      PublishInv(s);
    } else if Writing(s.pc) {
      WriteInv(s);
    } else {
      WrapStep(s.drops);
      assert RingOk(ProducerStep(s));
    }
  }

  lemma ReadInv(s: State)
    requires Inv(s) && Reading(s.drain)
    ensures Inv(DrainStep(s))
  {
    MaskedIsSlot(s, s.freed);
    assert SlotAt(s, s.drain.at) == s.ring[Slot(s.cap, s.freed)];
    assert Holds(SlotAt(s, s.drain.at), s.accepted[s.freed]);
    assert RingOk(DrainStep(s));
  }

  lemma MoveDrain(s: State, d: DrainPc)
    requires Inv(s) && !s.drain.Advance? && !d.Advance? && DrainOk(s.(drain := d))
    ensures Inv(s.(drain := d))
  {
    assert RingOk(s.(drain := d));
  }

  lemma LookInv(s: State)
    requires Inv(s) && !Reading(s.drain) && !s.drain.Advance?
    ensures Inv(DrainStep(s))
  {
    if s.drain.SeeHead? { Occupancy(s); }
    MoveDrain(s, DrainStep(s).drain);
  }

  lemma DrainInv(s: State)
    requires Inv(s)
    ensures Inv(DrainStep(s))
  {
    if Reading(s.drain) {
      ReadInv(s);
    } else if s.drain.Advance? {
      WrapStep(s.freed);
      assert RingOk(DrainStep(s));
    } else {
      LookInv(s);
    }
  }

  /** Equal words make `Flush` return, and they suffice even across the wrap: a
      tail that matches a later head with `2^64` records between them has passed
      everything that was published before `Flush` began. */
  lemma FlushInv(s: State, tailFirst: bool)
    requires Inv(s)
    ensures Inv(FlushStep(s, tailFirst))
  {
    CapBound(s.cap);
    match s.flush
    case SawTail(b, w, t) => if w == s.head { SameWord(t, |s.accepted|); }
    case SawHead(b, w, h) =>
      if s.tail == w {
        if s.freed < h { SameWord(s.freed, h); }
      }
    case _ =>
    assert RingOk(FlushStep(s, tailFirst));
  }

  lemma LogInv(s: State, rec: Record)
    requires Inv(s)
    ensures Inv(LogStep(s, rec))
  {
    assert RingOk(LogStep(s, rec));
  }

  lemma StepInv(s: State, a: Action)
    requires Inv(s)
    ensures Inv(Step(s, a))
  {
    hide ProducerStep, DrainStep, FlushStep;
    match a
    case Producer => ProducerInv(s);
    case Drain => DrainInv(s);
    case FlushLoad(tailFirst) => FlushInv(s, tailFirst);
    case StartLog(rec) => LogInv(s, rec);
    case _ => assert RingOk(Step(s, a));
  }

  lemma {:induction false} ExecInv(s: State, schedule: seq<Action>)
    requires Inv(s)
    ensures Inv(Exec(s, schedule))
  {
    if schedule != [] {
      ExecInv(s, schedule[..|schedule| - 1]);
      StepInv(Exec(s, schedule[..|schedule| - 1]), schedule[|schedule| - 1]);
    }
  }
}
