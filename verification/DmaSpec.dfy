/** The processor-in-memory device as a pure step relation: two function slots,
    the two engines behind them, the shared buffer, and the DRAM requests the
    engines have outstanding. None stands for a failed assertion or a fatal error. */
module DmaSpec {
  import opened PimDef
  import opened Bytes
  import opened Transfer
  import opened Decoder

  /** The two functions the device registers. */
  datatype Fn = F1 | U5

  datatype FState = INVALID | INITIALIZING | READY | RUNNING | DONE

  type Params = s: seq<word> | |s| == 8 witness [0, 0, 0, 0, 0, 0, 0, 0]

  datatype Slot = Slot(fstate: FState, counter: nat, params: Params)

  datatype DmaState = Idle | Read | Write | Waiting | Done

  /** An engine. The multiplier is the copier with both ends in DRAM and a scalar. */
  datatype Fsm = Fsm(dma: DmaState, total: nat, counter: nat, src: nat, dst: nat,
                     srcSram: bool, dstSram: bool, xform: Xform)

  /** A completion callback: what it captured, by value. */
  datatype Completion =
    | ReadDone(fn: Fn, next: DmaState)
    | WriteDone(fn: Fn, next: DmaState)

  datatype Request = Request(addr: nat, isWrite: bool, payload: seq<byte>)

  /** What the engines share: the buffer, the memories and the outstanding requests. */
  datatype Core = Core(buffer: seq<byte>, mem: Mem, pending: map<nat, Completion>,
                       flight: map<nat, Request>, nextId: nat)

  datatype Pim = Pim(f1: Slot, u5: Slot, copy: Fsm, mul: Fsm, core: Core) {
    function Slot(fn: Fn): Slot {
      if fn == F1 then f1 else u5
    }

    function Fsm(fn: Fn): Fsm {
      if fn == F1 then copy else mul
    }

    function WithSlot(fn: Fn, s: Slot): Pim {
      if fn == F1 then this.(f1 := s) else this.(u5 := s)
    }

    function WithFsm(fn: Fn, f: Fsm): Pim {
      if fn == F1 then this.(copy := f) else this.(mul := f)
    }
  }

  function Other(fn: Fn): Fn {
    if fn == F1 then U5 else F1
  }

  // ---- the slot state machine

  /** The new slot, and whether the write started the engine. Commands are cast to a
      32-bit enumeration, so only the low half of the word is compared. */
  function WriteFsm(s: Slot, d: word): Option<(Slot, bool)> {
    match s.fstate
    case INVALID => if d % TWO32 == INIT then Some((s.(fstate := INITIALIZING, counter := 0), false)) else None
    case DONE => if d % TWO32 == INIT then Some((s.(fstate := INITIALIZING, counter := 0), false)) else None
    case INITIALIZING =>
      if s.counter >= NUM_FUNC_PARAMS then None else
      var full := s.counter + 1 == NUM_FUNC_PARAMS;
      Some((Slot(if full then READY else INITIALIZING, s.counter + 1, s.params[s.counter := d]), false))
    case READY => if d % TWO32 == RUN then Some((s.(fstate := RUNNING, counter := 0), true)) else None
    case RUNNING => Some((s.(fstate := DONE, counter := 0), false))
  }

  function ReadFsm(s: Slot): word {
    match s.fstate
    case INVALID => 0
    case INITIALIZING => 1
    case READY => 2
    case RUNNING => 3
    case DONE => 4
  }

  // ---- starting an engine

  function StartCopy(f: Fsm, p: Params): Option<Fsm> {
    if p[2] == 0 then Some(f)
    else if p[2] % 8 != 0 || Decode(p[0]) == FUNC || Decode(p[1]) == FUNC then None
    else Some(Fsm(Read, p[2] / 8, p[2] / 8, p[1], p[0], Decode(p[1]) == SRAM, Decode(p[0]) == SRAM, Keep))
  }

  function StartMul(f: Fsm, p: Params): Option<Fsm> {
    if p[3] == 0 then Some(f)
    else if p[3] % 8 != 0 then None
    else Some(Fsm(Read, p[3] / 8, p[3] / 8, p[1], p[0], false, false, Times(p[2])))
  }

  function Start(fn: Fn, f: Fsm, p: Params): Option<Fsm> {
    if fn == F1 then StartCopy(f, p) else StartMul(f, p)
  }

  // ---- synchronous SRAM access and asynchronous DRAM requests

  function SramLoc(a: nat): Loc {
    Loc(Sram, a % SRAM_SIZE)
  }

  function SramRead(m: Mem, a: nat, n: nat): Option<seq<byte>> {
    if Decode(a) == SRAM && InBank(m, SramLoc(a), n) then Some(Load(m, SramLoc(a), n)) else None
  }

  function SramWrite(m: Mem, a: nat, d: seq<byte>): Option<Mem> {
    if Decode(a) == SRAM && InBank(m, SramLoc(a), |d|) then Some(Store(m, SramLoc(a), d)) else None
  }

  /** The request carries a copy of the buffer; an address outside the memory is fatal. */
  function Issue(c: Core, a: nat, isWrite: bool, done: Completion): Option<Core> {
    if a >= |c.mem.dram| then None
    else Some(c.(pending := c.pending[c.nextId := done],
                 flight := c.flight[c.nextId := Request(a, isWrite, c.buffer)],
                 nextId := c.nextId + 1))
  }

  // ---- one clock of an engine

  function ClockFsm(fn: Fn, f: Fsm, c0: Core): Option<(Core, Fsm, bool)> {
    var words := Min(CHUNK_WORDS, f.counter);
    var bytes := 8 * words;
    var c := c0.(buffer := Resize(c0.buffer, bytes));
    match f.dma
    case Read =>
      if f.srcSram then
        var d :- SramRead(c.mem, f.src, bytes);
        Some((c.(buffer := d), f.(dma := Write, src := f.src + bytes), false))
      else
        var c1 :- Issue(c, f.src, false, ReadDone(fn, Write));
        Some((c1, f.(dma := Waiting, src := f.src + bytes), false))
    case Write =>
      var left := f.counter - words;
      var next := if left > 0 then Read else Done;
      if f.dstSram then
        var m :- SramWrite(c.mem, f.dst, c.buffer);
        Some((c.(mem := m), f.(dma := next, counter := left, dst := f.dst + bytes), false))
      else
        var c1 :- Issue(c, f.dst, true, WriteDone(fn, next));
        Some((c1, f.(dma := Waiting, counter := left, dst := f.dst + bytes), false))
    case Done => Some((c, f.(dma := Idle), true))
    case _ => Some((c, f, false))
  }

  /** Clock one slot: does nothing unless it is running; the flag says it just finished. */
  function ClockSlot(p: Pim, fn: Fn): Option<(Pim, bool)> {
    if p.Slot(fn).fstate != RUNNING then Some((p, false)) else
    var (c, f, done) :- ClockFsm(fn, p.Fsm(fn), p.core);
    var q := p.WithFsm(fn, f).(core := c);
    if !done then Some((q, false)) else
    var (s, _) :- WriteFsm(q.Slot(fn), FINISH);
    Some((q.WithSlot(fn, s), true))
  }

  /** Slots are clocked in order, and a slot that finishes ends the cycle. */
  function Clock(p: Pim): Option<Pim> {
    var (q, done) :- ClockSlot(p, F1);
    if done then Some(q) else
    var (r, _) :- ClockSlot(q, U5);
    Some(r)
  }

  // ---- a DRAM response

  /** The callback: engine fn's new state and the new buffer. */
  function Complete(done: Completion, f: Fsm, buffer: seq<byte>, d: seq<byte>): Option<(Fsm, seq<byte>)> {
    match done
    case ReadDone(_, next) =>
      if |buffer| != |d| || (f.xform.Times? && |d| % 8 != 0) then None
      else Some((f.(dma := next), Apply(f.xform, d)))
    case WriteDone(_, next) => Some((f.(dma := next), buffer))
  }

  /** Writes land, and reads look, when the memory answers. */
  function Respond(p: Pim, id: nat): Option<Pim> {
    var c := p.core;
    if id !in c.flight || id !in c.pending then None else
    var r := c.flight[id];
    var l := Loc(Dram, r.addr);
    if !InBank(c.mem, l, |r.payload|) then None else
    var m := if r.isWrite then Store(c.mem, l, r.payload) else c.mem;
    var d := if r.isWrite then r.payload else Load(c.mem, l, |r.payload|);
    var fn := c.pending[id].fn;
    var (f, b) :- Complete(c.pending[id], p.Fsm(fn), c.buffer, d);
    Some(p.WithFsm(fn, f).(core := Core(b, m, c.pending - {id}, c.flight - {id}, c.nextId)))
  }

  // ---- host accesses

  function SlotIndex(fn: Fn): nat {
    if fn == F1 then 1 else 13
  }

  /** The slot an aligned 8-byte access to the function page names, if it exists. */
  function SlotAt(a: nat, n: nat): Option<Fn> {
    var k := (a / 8) % 16;
    if a % 8 != 0 || n != 8 then None
    else if k == 1 then Some(F1)
    else if k == 13 then Some(U5)
    else None
  }

  function SlotWrite(p: Pim, fn: Fn, d: word): Option<Pim> {
    var (s, started) :- WriteFsm(p.Slot(fn), d);
    var q := p.WithSlot(fn, s);
    if !started then Some(q) else
    var f :- Start(fn, q.Fsm(fn), s.params);
    Some(q.WithFsm(fn, f))
  }

  function WithMem(p: Pim, m: Mem): Pim {
    p.(core := p.core.(mem := m))
  }

  /** A write that is not the device's own. Memory-mapped writes that are not eight bytes
      long are dropped. */
  function HostWrite(p: Pim, a: nat, d: seq<byte>): Option<Pim> {
    if !IsIO(a) then
      var l := Loc(Dram, a);
      if InBank(p.core.mem, l, |d|) then Some(WithMem(p, Store(p.core.mem, l, d))) else None
    else if |d| != 8 then Some(p)
    else if Decode(a) == SRAM then
      var m :- SramWrite(p.core.mem, a, d);
      Some(WithMem(p, m))
    else
      var fn :- SlotAt(a, |d|);
      SlotWrite(p, fn, WordOf(d))
  }

  function HostRead(p: Pim, a: nat, n: nat): Option<seq<byte>> {
    if !IsIO(a) then
      if InBank(p.core.mem, Loc(Dram, a), n) then Some(Load(p.core.mem, Loc(Dram, a), n)) else None
    else if Decode(a) == SRAM then SramRead(p.core.mem, a, n)
    else
      var fn :- SlotAt(a, n);
      Some(ToBytes(ReadFsm(p.Slot(fn)), 8))
  }

  // ---- steps and runs

  datatype Event =
    | Tick
    | Answer(id: nat)
    | Put(addr: nat, data: seq<byte>)
    | Get(addr: nat, len: nat)

  function Step(p: Pim, e: Event): Option<Pim> {
    match e
    case Tick => Clock(p)
    case Answer(id) => Respond(p, id)
    case Put(a, d) => HostWrite(p, a, d)
    case Get(a, n) =>
      var _ :- HostRead(p, a, n);
      Some(p)
  }

  function Run(p: Pim, es: seq<Event>): Option<Pim>
    decreases |es|
  {
    if es == [] then Some(p) else
    var q :- Step(p, es[0]);
    Run(q, es[1..])
  }
}
