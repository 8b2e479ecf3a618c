/** `RtLogger` as a transition system: one producer thread, one drain thread, one
    thread that flushes and one that stops the logger. Every access to a shared
    variable is one step; the indices are 64-bit words that wrap. */
module SpscModel {
  import opened Words
  import opened Records

  /** Which access the producer makes next; `head` is its copy of the write index. */
  datatype ProducerPc =
    | Idle
    | LoadHead(rec: Record)
    | LoadTail(rec: Record, head: Word)
    | CountDrop(rec: Record)
    | WriteLevel(rec: Record, head: Word)
    | WriteTime(rec: Record, head: Word)
    | WriteMsg(rec: Record, head: Word)
    | WriteLen(rec: Record, head: Word)
    | Publish(rec: Record, head: Word)   // head_.store

  /** Which access the drain thread makes next; `at` is its copy of the read index. */
  datatype DrainPc =
    | OwnTail
    | SeeHead(at: Word)
    | ReadTime(at: Word)
    | ReadLevel(at: Word, time: int)
    | ReadLen(at: Word, time: int, level: Level)
    | Emit(at: Word, time: int, level: Level, len: nat)
    | Advance(at: Word)                  // tail_.store
    | CheckRunning
    | Exited

  /** Where `Flush` is; its two loads may come in either order. `begin` counts the
      records published when the call began; `seen` is the true count behind the
      word that was loaded. */
  datatype FlushPc =
    | NotFlushing
    | Polling(begin: nat)
    | SawTail(begin: nat, word: Word, seen: nat)
    | SawHead(begin: nat, word: Word, seen: nat)
    | Flushed(begin: nat)

  datatype RingState = RingState(
    cap: nat,
    ring: seq<Payload>,
    head: Word,
    tail: Word,
    dropped: nat,
    minLevel: Level,
    running: bool,
    pc: ProducerPc,
    drain: DrainPc,
    flush: FlushPc,
    // History: the published records, how many slots were handed back, what was
    // logged, and how the calls of `Log` ended.
    accepted: seq<Record>,
    freed: nat,
    sink: seq<Record>,
    calls: nat,
    filtered: nat,
    rejected: nat,
    drops: nat)

  type State = s: RingState | s.cap > 0 && |s.ring| == s.cap
    witness RingState(1, [EmptySlot()], 0, 0, 0, 0, true, Idle, OwnTail, NotFlushing, [], 0, [], 0, 0, 0, 0)

  function EmptySlot(): Payload {
    Payload(0, 2, seq(MAX_MSG_LEN, _ => ' '), 0)
  }

  function Init(cap: nat, minLevel: Level): State
    requires cap > 0
  {
    RingState(cap, seq(cap, _ => EmptySlot()), 0, 0, 0, minLevel, true, Idle, OwnTail, NotFlushing,
              [], 0, [], 0, 0, 0, 0)
  }

  datatype Action =
    | StartLog(rec: Record)
    | Producer
    | Drain
    | SetLevel(level: Level)
    | Stop
    | BeginFlush
    | FlushLoad(tailFirst: bool)

  /** `ring_[i & mask_]` */
  function SlotAt(s: State, i: Word): Payload {
    s.ring[Masked(s.cap, i)]
  }

  function WithSlot(s: State, i: Word, f: Payload): State {
    s.(ring := s.ring[Masked(s.cap, i) := f])
  }

  function LogStep(s: State, rec: Record): State {
    if s.pc != Idle || |rec.text| > MAX_MSG_LEN then s
    else if rec.level < s.minLevel then s.(filtered := s.filtered + 1)
    else s.(calls := s.calls + 1, pc := LoadHead(rec))
  }

  function ProducerStep(s: State): State {
    match s.pc
    case Idle => s
    case LoadHead(r) => s.(pc := LoadTail(r, s.head))
    case LoadTail(r, h) =>
      if Minus64(h, s.tail) >= s.cap
      then s.(pc := CountDrop(r), rejected := s.rejected + 1)
      else s.(pc := WriteLevel(r, h))
    case CountDrop(_) => s.(pc := Idle, dropped := Wrap64(s.dropped + 1), drops := s.drops + 1)
    case WriteLevel(r, h) => WithSlot(s, h, SlotAt(s, h).(level := r.level)).(pc := WriteTime(r, h))
    case WriteTime(r, h) => WithSlot(s, h, SlotAt(s, h).(time := r.time)).(pc := WriteMsg(r, h))
    case WriteMsg(r, h) =>
      WithSlot(s, h, SlotAt(s, h).(msg := Overlay(SlotAt(s, h).msg, r.text))).(pc := WriteLen(r, h))
    case WriteLen(r, h) => WithSlot(s, h, SlotAt(s, h).(len := |r.text|)).(pc := Publish(r, h))
    case Publish(r, h) => s.(head := Wrap64(h + 1), accepted := s.accepted + [r], pc := Idle)
  }

  function DrainStep(s: State): State {
    match s.drain
    case OwnTail => s.(drain := SeeHead(s.tail))
    case SeeHead(t) => s.(drain := if t == s.head then CheckRunning else ReadTime(t))
    case ReadTime(t) => s.(drain := ReadLevel(t, SlotAt(s, t).time))
    case ReadLevel(t, time) => s.(drain := ReadLen(t, time, SlotAt(s, t).level))
    case ReadLen(t, time, level) => s.(drain := Emit(t, time, level, SlotAt(s, t).len))
    case Emit(t, time, level, len) =>
      s.(sink := s.sink + [Record(time, level, TextOf(SlotAt(s, t).msg, len))], drain := Advance(t))
    case Advance(t) => s.(tail := Wrap64(t + 1), freed := s.freed + 1, drain := OwnTail)
    case CheckRunning => s.(drain := if s.running then OwnTail else Exited)
    case Exited => s
  }

  function FlushStep(s: State, tailFirst: bool): State {
    match s.flush
    case Polling(b) =>
      s.(flush := if tailFirst then SawTail(b, s.tail, s.freed) else SawHead(b, s.head, |s.accepted|))
    case SawTail(b, t, _) => s.(flush := if t == s.head then Flushed(b) else Polling(b))
    case SawHead(b, h, _) => s.(flush := if s.tail == h then Flushed(b) else Polling(b))
    case _ => s
  }

  function Step(s: State, a: Action): State {
    match a
    case StartLog(rec) => LogStep(s, rec)
    case Producer => ProducerStep(s)
    case Drain => DrainStep(s)
    case SetLevel(l) => s.(minLevel := l)
    case Stop => s.(running := false)
    case BeginFlush =>
      if s.flush.NotFlushing? || s.flush.Flushed? then s.(flush := Polling(|s.accepted|)) else s
    case FlushLoad(tailFirst) => FlushStep(s, tailFirst)
  }

  function Exec(s: State, schedule: seq<Action>): State {
    if schedule == [] then s
    else Step(Exec(s, schedule[..|schedule| - 1]), schedule[|schedule| - 1])
  }
}
