/** `MpscRtLogger` as a transition system: any number of producer threads, one
    drain thread, one thread that flushes and one that stops the logger.

    Every access to a shared variable is one step, so any interleaving of the
    accesses is a sequence of actions. Steps are sequentially consistent; the
    acquire/release pairs on a cell's `sequence` are what justifies this for the
    payload fields. An action that its thread cannot take leaves the state as it
    is, so every finite sequence of actions is a schedule. */
module MpscModel {
  import opened Words
  import opened Records

  type ProducerId = nat

  datatype Cell = Cell(sequence: nat, payload: Payload)

  /** One call of `Log` that passed the level filter. `start` is the enqueue
      position when it began; the two counters record why its loop iterated. */
  datatype Call = Call(id: nat, start: nat, rec: Record, retries: nat, spurious: nat)

  /** Which access a producer makes next. */
  datatype ProducerPc =
    | Idle
    | LoadPos(call: Call)               // enqueue_pos_.load
    | LoadSeq(call: Call, pos: nat)     // cell->sequence.load
    | TryClaim(call: Call, pos: nat)    // diff == 0: compare_exchange_weak
    | CountDrop(call: Call, pos: nat)   // diff < 0: dropped_.fetch_add
    | Reload(call: Call, pos: nat)      // diff > 0: enqueue_pos_.load
    | WriteTime(call: Call, pos: nat)
    | WriteLevel(call: Call, pos: nat)
    | WriteMsg(call: Call, pos: nat)
    | WriteLen(call: Call, pos: nat)
    | Publish(call: Call, pos: nat)     // cell->sequence.store

  /** Which access the drain thread makes next. */
  datatype DrainPc =
    | LoadDequeue
    | LoadCell(at: nat)
    | ReadTime(at: nat)
    | ReadLevel(at: nat, time: int)
    | ReadLen(at: nat, time: int, level: Level)
    | Emit(at: nat, time: int, level: Level, len: nat)  // sink_logger_->log
    | Advance(at: nat)                                  // dequeue_pos_.store
    | Free(at: nat)                                     // cell.sequence.store
    | CheckRunning
    | Exited

  /** Where `Flush` is. C++ leaves the order of its two loads open. `begin` is
      the enqueue position when the call began. */
  datatype FlushPc =
    | NotFlushing
    | Polling(begin: nat)
    | SawDequeue(begin: nat, d: nat)
    | SawEnqueue(begin: nat, e: nat)
    | Flushed(begin: nat)

  datatype Claim = Claim(producer: ProducerId, call: Call)

  datatype RingState = RingState(
    cap: nat,
    cells: seq<Cell>,
    enq: nat,
    deq: nat,
    dropped: nat,
    minLevel: Level,
    running: bool,
    pcs: map<ProducerId, ProducerPc>,
    drain: DrainPc,
    flush: FlushPc,
    // History. `freed` counts the cells handed back; between the two stores of
    // an iteration of the drain loop it is one behind `deq`. `rejected` counts
    // the calls that found the ring full, `drops` those that also counted it.
    freed: nat,
    claims: seq<Claim>,
    sink: seq<Record>,
    callers: seq<ProducerId>,
    filtered: nat,
    rejected: nat,
    drops: nat)

  type State = s: RingState | s.cap > 0 && |s.cells| == s.cap
    witness RingState(1, [EmptyCell(0)], 0, 0, 0, 0, true, map[], LoadDequeue, NotFlushing, 0, [], [], [], 0, 0, 0)

  function EmptyCell(i: nat): Cell {
    Cell(i, Payload(0, 2, seq(MAX_MSG_LEN, _ => ' '), 0))
  }

  /** The state that the constructor leaves: cell `i` carries sequence `i`. */
  function Init(cap: nat, minLevel: Level): State
    requires cap > 0
  {
    RingState(cap, seq(cap, (i: nat) => EmptyCell(i)), 0, 0, 0, minLevel, true, map[],
              LoadDequeue, NotFlushing, 0, [], [], [], 0, 0, 0)
  }

  datatype Action =
    | StartLog(p: ProducerId, rec: Record)
    | Producer(p: ProducerId, spurious: bool)
    | Drain
    | SetLevel(level: Level)
    | Stop
    | BeginFlush
    | FlushLoad(dequeueFirst: bool)

  function Pc(s: State, p: ProducerId): ProducerPc {
    if p in s.pcs then s.pcs[p] else Idle
  }

  function At(s: State, p: ProducerId, pc: ProducerPc): State {
    s.(pcs := s.pcs[p := pc])
  }

  function CellAt(s: State, pos: nat): Cell {
    s.cells[Slot(s.cap, pos)]
  }

  function WithCell(s: State, pos: nat, c: Cell): State {
    s.(cells := s.cells[Slot(s.cap, pos) := c])
  }

  function WithPayload(s: State, pos: nat, f: Payload): State {
    WithCell(s, pos, CellAt(s, pos).(payload := f))
  }

  /** `static_cast<int64_t>(seq) - static_cast<int64_t>(pos)` */
  function Diff(seqno: nat, pos: nat): int {
    AsInt64(seqno) - AsInt64(pos)
  }

  /** Entering `Log`: the level filter, before any slot is claimed. */
  function LogStep(s: State, p: ProducerId, rec: Record): State {
    if Pc(s, p) != Idle || |rec.text| > MAX_MSG_LEN then s
    else if rec.level < s.minLevel then s.(filtered := s.filtered + 1)
    else At(s.(callers := s.callers + [p]), p, LoadPos(Call(|s.callers|, s.enq, rec, 0, 0)))
  }

  /** Between its claim and its publish a producer owns the claimed position. */
  predicate Owning(pc: ProducerPc) {
    pc.WriteTime? || pc.WriteLevel? || pc.WriteMsg? || pc.WriteLen? || pc.Publish?
  }

  function ProducerStep(s: State, p: ProducerId, spurious: bool): State {
    if Owning(Pc(s, p)) then FillStep(s, p)
    else if Pc(s, p).Idle? then s
    else LoopStep(s, p, spurious)
  }

  /** One access of the claim loop. */
  function LoopStep(s: State, p: ProducerId, spurious: bool): State
    requires !Pc(s, p).Idle? && !Owning(Pc(s, p))
  {
    match Pc(s, p)
    case LoadPos(c) => At(s, p, LoadSeq(c, s.enq))
    case LoadSeq(c, pos) => LoadSeqStep(s, p, c, pos)
    case TryClaim(c, pos) => ClaimStep(s, p, c, pos, spurious)
    case CountDrop(_, _) => At(s.(dropped := Wrap64(s.dropped + 1), drops := s.drops + 1), p, Idle)
    case Reload(c, _) => At(s, p, LoadSeq(c.(retries := c.retries + 1), s.enq))
  }

  /** One store of an owner into its cell: the payload, then the publish. */
  function FillStep(s: State, p: ProducerId): State
    requires Owning(Pc(s, p))
  {
    match Pc(s, p)
    case WriteTime(c, pos) =>
      At(WithPayload(s, pos, CellAt(s, pos).payload.(time := c.rec.time)), p, WriteLevel(c, pos))
    case WriteLevel(c, pos) =>
      At(WithPayload(s, pos, CellAt(s, pos).payload.(level := c.rec.level)), p, WriteMsg(c, pos))
    case WriteMsg(c, pos) =>
      At(WithPayload(s, pos, CellAt(s, pos).payload.(msg := Overlay(CellAt(s, pos).payload.msg, c.rec.text))),
         p, WriteLen(c, pos))
    case WriteLen(c, pos) =>
      At(WithPayload(s, pos, CellAt(s, pos).payload.(len := |c.rec.text|)), p, Publish(c, pos))
    case Publish(c, pos) =>
      At(WithCell(s, pos, CellAt(s, pos).(sequence := Wrap64(pos + 1))), p, Idle)
  }

  function LoadSeqStep(s: State, p: ProducerId, c: Call, pos: nat): State {
    var diff := Diff(CellAt(s, pos).sequence, pos);
    if diff == 0 then At(s, p, TryClaim(c, pos))
    else if diff < 0 then At(s.(rejected := s.rejected + 1), p, CountDrop(c, pos))
    else At(s, p, Reload(c, pos))
  }

  /** `compare_exchange_weak(pos, pos + 1)`: it may fail although the positions
      agree, and a failure reloads `pos`. */
  function ClaimStep(s: State, p: ProducerId, c: Call, pos: nat, spurious: bool): State {
    if s.enq == pos && !spurious then
      At(s.(enq := Wrap64(pos + 1), claims := s.claims + [Claim(p, c)]), p, WriteTime(c, pos))
    else
      At(s, p, LoadSeq(c.(retries := c.retries + 1,
                          spurious := c.spurious + if s.enq == pos then 1 else 0), s.enq))
  }

  function DrainStep(s: State): State {
    match s.drain
    case LoadDequeue => s.(drain := LoadCell(s.deq))
    case LoadCell(pos) =>
      if Diff(CellAt(s, pos).sequence, Wrap64(pos + 1)) == 0
      then s.(drain := ReadTime(pos)) else s.(drain := CheckRunning)
    case ReadTime(pos) => s.(drain := ReadLevel(pos, CellAt(s, pos).payload.time))
    case ReadLevel(pos, t) => s.(drain := ReadLen(pos, t, CellAt(s, pos).payload.level))
    case ReadLen(pos, t, l) => s.(drain := Emit(pos, t, l, CellAt(s, pos).payload.len))
    case Emit(pos, t, l, n) =>
      s.(sink := s.sink + [Record(t, l, TextOf(CellAt(s, pos).payload.msg, n))], drain := Advance(pos))
    case Advance(pos) => s.(deq := Wrap64(pos + 1), drain := Free(pos))
    case Free(pos) =>
      WithCell(s, pos, CellAt(s, pos).(sequence := Wrap64(pos + (s.cap - 1) + 1)))
        .(freed := s.freed + 1, drain := LoadDequeue)
    case CheckRunning => s.(drain := if s.running then LoadDequeue else Exited)
    case Exited => s
  }

  function FlushStep(s: State, dequeueFirst: bool): State {
    match s.flush
    case Polling(b) =>
      s.(flush := if dequeueFirst then SawDequeue(b, s.deq) else SawEnqueue(b, s.enq))
    case SawDequeue(b, d) => s.(flush := if d == s.enq then Flushed(b) else Polling(b))
    case SawEnqueue(b, e) => s.(flush := if s.deq == e then Flushed(b) else Polling(b))
    case _ => s
  }

  function Step(s: State, a: Action): State {
    match a
    case StartLog(p, rec) => LogStep(s, p, rec)
    case Producer(p, spurious) => ProducerStep(s, p, spurious)
    case Drain => DrainStep(s)
    case SetLevel(l) => s.(minLevel := l)
    case Stop => s.(running := false)
    case BeginFlush => if s.flush.NotFlushing? || s.flush.Flushed? then s.(flush := Polling(s.enq)) else s
    case FlushLoad(dequeueFirst) => FlushStep(s, dequeueFirst)
  }

  /** The state after a schedule. */
  function Exec(s: State, schedule: seq<Action>): State {
    if schedule == [] then s
    else Step(Exec(s, schedule[..|schedule| - 1]), schedule[|schedule| - 1])
  }

  /** Few enough claims that every position and sequence number stays below
      `2^63`, where the signed difference of two of them is their distance. */
  predicate Bounded(s: State) {
    |s.claims| + s.cap <= TWO63
  }
}
