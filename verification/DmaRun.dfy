/** Whole runs of the device: whatever the answers' delays and whatever else writes to
    memory, a run is a sequence of memory operations in which each call is one step. */
module DmaRun {
  import opened PimDef
  import opened Bytes
  import opened Transfer
  import opened Decoder
  import opened DmaSpec
  import opened DmaProof

  predicate Running(p: Pim, fn: Fn) {
    p.Slot(fn).fstate == RUNNING
  }

  function JobIn(p: Pim, fn: Fn): Job {
    JobOf(fn, p.Slot(fn).params)
  }

  predicate SlotOk(s: Slot) {
    s.fstate == INITIALIZING ==> s.counter < NUM_FUNC_PARAMS
  }

  /** The device invariant: at most one function runs, its engine is engaged on the call in
      its slot, and an engine whose slot is not running is idle. */
  predicate Inv(p: Pim) {
    && |p.core.mem.sram| == SRAM_SIZE
    && SlotOk(p.f1) && SlotOk(p.u5)
    && !(Running(p, F1) && Running(p, U5))
    && (if Running(p, F1) then Engaged(JobIn(p, F1), p.copy, p.core) else p.copy.dma == Idle)
    && (if Running(p, U5) then Engaged(JobIn(p, U5), p.mul, p.core) else p.mul.dma == Idle)
    && (!Running(p, F1) && !Running(p, U5) ==> Quiet(p.core))
  }

  /** The abstraction function: memory as it will stand once the running call is over. */
  function Finish(p: Pim): Mem
    requires Inv(p)
  {
    if Running(p, F1) then Target(JobIn(p, F1), p.copy, p.core)
    else if Running(p, U5) then Target(JobIn(p, U5), p.mul, p.core)
    else p.core.mem
  }

  // ---- the memory operations a run amounts to

  datatype Op = PutBytes(loc: Loc, data: seq<byte>) | Call(plan: Plan)

  function Do(m: Mem, op: Op): (r: Mem)
    ensures SameSize(m, r)
  {
    match op
    case PutBytes(l, d) => if InBank(m, l, |d|) then Store(m, l, d) else m
    case Call(q) => if Fits(m, q) then Chunked(m, q) else m
  }

  function Replay(m: Mem, ops: seq<Op>): (r: Mem)
    ensures SameSize(m, r)
    decreases |ops|
  {
    if ops == [] then m else Replay(Do(m, ops[0]), ops[1..])
  }

  lemma {:induction false} ReplayConcat(m: Mem, a: seq<Op>, b: seq<Op>)
    ensures Replay(m, a + b) == Replay(Replay(m, a), b)
    decreases |a|
  {
    if a == [] {
      assert a + b == b;
    } else {
      assert (a + b)[0] == a[0] && (a + b)[1..] == a[1..] + b;
      ReplayConcat(Do(m, a[0]), a[1..], b);
    }
  }

  predicate ClearOf(p: Pim, fn: Fn, l: Loc, n: nat) {
    Running(p, fn) ==> Apart(l, n, JobIn(p, fn).plan)
  }

  /** A host write to a slot follows the protocol: INIT, eight parameters, RUN on a legal
      call while no function runs, and nothing while the slot is running. */
  predicate LegalCommand(p: Pim, fn: Fn, d: word) {
    match p.Slot(fn).fstate
    case INVALID => d % TWO32 == INIT
    case DONE => d % TWO32 == INIT
    case INITIALIZING => true
    case READY => d % TWO32 == RUN && !Running(p, Other(fn)) && LegalCall(p.core.mem, fn, p.Slot(fn).params)
    case RUNNING => false
  }

  /** What the environment may do: clock, answer an outstanding request, and access
      memory inside its bounds and clear of the ranges of the running call. */
  predicate Legal(p: Pim, e: Event) {
    match e
    case Tick => true
    case Answer(id) => id in p.core.flight
    case Put(a, d) =>
      if !IsIO(a) then
        InBank(p.core.mem, Loc(Dram, a), |d|) && forall fn :: ClearOf(p, fn, Loc(Dram, a), |d|)
      else if |d| != 8 then true
      else if Decode(a) == SRAM then
        InBank(p.core.mem, SramLoc(a), 8) && forall fn :: ClearOf(p, fn, SramLoc(a), 8)
      else SlotAt(a, 8).Some? && LegalCommand(p, SlotAt(a, 8).value, WordOf(d))
    case Get(a, n) => HostRead(p, a, n).Some?
  }

  /** The operation a step stands for: a foreign write is itself, the write that starts a
      function is the whole call, and everything else is nothing. */
  function OpsOf(p: Pim, e: Event): seq<Op> {
    match e
    case Put(a, d) =>
      if !IsIO(a) then [PutBytes(Loc(Dram, a), d)]
      else if |d| != 8 then []
      else if Decode(a) == SRAM then [PutBytes(SramLoc(a), d)]
      else if SlotAt(a, 8).Some? && p.Slot(SlotAt(a, 8).value).fstate == READY then
        [Call(JobIn(p, SlotAt(a, 8).value).plan)]
      else []
    case _ => []
  }

  /** One step: it cannot fail, keeps the invariant, and acts on the abstract memory as its
      operation. */
  predicate Simulated(p: Pim, q: Pim, ops: seq<Op>) {
    Inv(p) && Inv(q) && Finish(q) == Replay(Finish(p), ops)
  }

  // ---- clocks and answers

  lemma ClockRunning(p: Pim, fn: Fn)
    requires Inv(p) && Running(p, fn)
    ensures ClockSlot(p, fn).Some?
    ensures Simulated(p, ClockSlot(p, fn).value.0, [])
    ensures var (q, done) := ClockSlot(p, fn).value;
            done == !Running(q, fn) && q.Slot(Other(fn)) == p.Slot(Other(fn))
  {
    ClockEngaged(JobIn(p, fn), p.Fsm(fn), p.core);
  }

  lemma TickSimulated(p: Pim)
    requires Inv(p)
    ensures Clock(p).Some? && Simulated(p, Clock(p).value, [])
  {
    hide Engaged, Target;
    if Running(p, F1) {
      ClockRunning(p, F1);
    } else if Running(p, U5) {
      ClockRunning(p, U5);
    }
  }

  lemma AnswerSimulated(p: Pim, id: nat)
    requires Inv(p) && id in p.core.flight
    ensures Respond(p, id).Some? && Simulated(p, Respond(p, id).value, [])
  {
    var fn := if Running(p, F1) then F1 else U5;
    AnswerRunning(p, fn, id);
  }

  lemma AnswerRunning(p: Pim, fn: Fn, id: nat)
    requires Inv(p) && Running(p, fn) && id in p.core.flight
    ensures Respond(p, id).Some? && Simulated(p, Respond(p, id).value, [])
  {
    hide Steady, Target, Store, Load, Apply;
    var j, f, c := JobIn(p, fn), p.Fsm(fn), p.core;
    assert Engaged(j, f, c);
    var r := c.flight[id];
    assert c.pending - {id} == map[] && c.flight - {id} == map[];
    if r.isWrite {
      AnswerWrite(j, f, c, r);
    } else {
      AnswerRead(j, f, c, r);
    }
  }

  // ---- host accesses

  lemma MemoryPutSimulated(p: Pim, l: Loc, d: seq<byte>)
    requires Inv(p) && InBank(p.core.mem, l, |d|) && forall fn :: ClearOf(p, fn, l, |d|)
    ensures Simulated(p, WithMem(p, Store(p.core.mem, l, d)), [PutBytes(l, d)])
  {
    hide Engaged, Target, Splice;
    assert Replay(Finish(p), [PutBytes(l, d)]) == Do(Finish(p), PutBytes(l, d));
    assert ClearOf(p, F1, l, |d|) && ClearOf(p, U5, l, |d|);
    if Running(p, F1) {
      TargetSize(JobIn(p, F1), p.copy, p.core);
      OthersSlidePast(JobIn(p, F1), p.copy, p.core, l, d);
    } else if Running(p, U5) {
      TargetSize(JobIn(p, U5), p.mul, p.core);
      OthersSlidePast(JobIn(p, U5), p.mul, p.core, l, d);
    }
  }

  lemma TargetSize(j: Job, f: Fsm, c: Core)
    requires Engaged(j, f, c)
    ensures SameSize(Target(j, f, c), c.mem)
  {
  }

  lemma CommandSimulated(p: Pim, fn: Fn, d: word)
    requires Inv(p) && LegalCommand(p, fn, d)
    ensures SlotWrite(p, fn, d).Some?
    ensures Simulated(p, SlotWrite(p, fn, d).value,
                      if p.Slot(fn).fstate == READY then [Call(JobIn(p, fn).plan)] else [])
  {
    hide Engaged, Target, Chunked;
    if p.Slot(fn).fstate == READY {
      var q := JobIn(p, fn).plan;
      StartEngages(fn, p.Slot(fn).params, p.Fsm(fn), p.core);
      assert Replay(Finish(p), [Call(q)]) == Do(Finish(p), Call(q));
    }
  }

  lemma PutSimulated(p: Pim, a: nat, d: seq<byte>)
    requires Inv(p) && Legal(p, Put(a, d))
    ensures HostWrite(p, a, d).Some?
    ensures Simulated(p, HostWrite(p, a, d).value, OpsOf(p, Put(a, d)))
  {
    hide Inv, Finish, Store;
    if !IsIO(a) {
      MemoryPutSimulated(p, Loc(Dram, a), d);
    } else if |d| == 8 && Decode(a) == SRAM {
      MemoryPutSimulated(p, SramLoc(a), d);
    } else if |d| == 8 {
      CommandSimulated(p, SlotAt(a, 8).value, WordOf(d));
    }
  }

  /** The simulation theorem, one step. */
  lemma StepSimulated(p: Pim, e: Event)
    requires Inv(p) && Legal(p, e)
    ensures Step(p, e).Some? && Simulated(p, Step(p, e).value, OpsOf(p, e))
  {
    hide Inv, Finish, Clock, Respond, HostWrite, HostRead;
    match e {
      case Tick => TickSimulated(p);
      case Answer(id) => AnswerSimulated(p, id);
      case Put(a, d) => PutSimulated(p, a, d);
      case Get(_, _) =>
    }
  }

  // ---- runs

  predicate LegalRun(p: Pim, es: seq<Event>)
    decreases |es|
  {
    es == [] || (Legal(p, es[0]) && (Step(p, es[0]).Some? ==> LegalRun(Step(p, es[0]).value, es[1..])))
  }

  function Log(p: Pim, es: seq<Event>): seq<Op>
    decreases |es|
  {
    if es == [] then []
    else OpsOf(p, es[0]) + if Step(p, es[0]).Some? then Log(Step(p, es[0]).value, es[1..]) else []
  }

  /** The simulation theorem, every run: it cannot fail, and whenever no function runs the
      memory is the starting memory with the logged writes and calls performed in order. */
  lemma {:induction false} RunSimulated(p: Pim, es: seq<Event>)
    requires Inv(p) && LegalRun(p, es)
    ensures Run(p, es).Some? && Inv(Run(p, es).value)
    ensures Finish(Run(p, es).value) == Replay(Finish(p), Log(p, es))
    decreases |es|
  {
    hide Inv, Finish, Legal, Step, OpsOf;
    if es != [] {
      StepSimulated(p, es[0]);
      var q := Step(p, es[0]).value;
      RunSimulated(q, es[1..]);
      ReplayConcat(Finish(p), OpsOf(p, es[0]), Log(q, es[1..]));
    }
  }

  /** Legal runs follow one another. */
  lemma {:induction false} RunJoins(p: Pim, a: seq<Event>, b: seq<Event>)
    requires Inv(p) && LegalRun(p, a) && (Run(p, a).Some? ==> LegalRun(Run(p, a).value, b))
    ensures LegalRun(p, a + b) && Run(p, a).Some? && Run(p, a + b) == Run(Run(p, a).value, b)
    decreases |a|
  {
    hide Inv, Legal, Step;
    if a == [] {
      assert a + b == b;
    } else {
      assert (a + b)[0] == a[0] && (a + b)[1..] == a[1..] + b;
      StepSimulated(p, a[0]);
      RunJoins(Step(p, a[0]).value, a[1..], b);
    }
  }

  lemma QuietRunIsReplay(p: Pim, es: seq<Event>)
    requires Inv(p) && LegalRun(p, es) && !Running(p, F1) && !Running(p, U5)
    requires Run(p, es).Some? ==> !Running(Run(p, es).value, F1) && !Running(Run(p, es).value, U5)
    ensures Run(p, es).Some?
    ensures Run(p, es).value.core.mem == Replay(p.core.mem, Log(p, es))
  {
    RunSimulated(p, es);
  }

  // ---- what one call does, start to finish

  predicate Writes(ops: seq<Op>) {
    forall op :: op in ops ==> op.PutBytes?
  }

  /** Writes that stay clear of a range. */
  predicate WritesAvoid(ops: seq<Op>, l: Loc, n: nat) {
    Writes(ops) && forall op :: op in ops ==> Disjoint(op.loc, |op.data|, l, n)
  }

  /** Everything in a log but its k-th operation. */
  function Others(log: seq<Op>, k: nat): seq<Op>
    requires k < |log|
  {
    log[..k] + log[k + 1..]
  }

  /** A run that begins and ends quiet and whose k-th operation is its only call; before,
      during and after it, others may write to memory. */
  predicate OneCall(p: Pim, es: seq<Event>, q: Plan, k: nat) {
    && Inv(p) && LegalRun(p, es) && !Running(p, F1) && !Running(p, U5)
    && (Run(p, es).Some? ==> !Running(Run(p, es).value, F1) && !Running(Run(p, es).value, U5))
    && Fits(p.core.mem, q)
    && k < |Log(p, es)| && Log(p, es)[k] == Call(q) && Writes(Others(Log(p, es), k))
  }

  /** What others write stays clear of both of the call's ranges. */
  predicate OthersApart(p: Pim, es: seq<Event>, q: Plan, k: nat)
    requires OneCall(p, es, q, k)
  {
    var ops := Others(Log(p, es), k);
    WritesAvoid(ops, q.src, q.Bytes()) && WritesAvoid(ops, q.dst, q.Bytes())
  }

  lemma {:induction false} WritesLeave(m: Mem, ops: seq<Op>, l: Loc, n: nat)
    requires InBank(m, l, n) && WritesAvoid(ops, l, n)
    ensures Load(Replay(m, ops), l, n) == Load(m, l, n)
    decreases |ops|
  {
    if ops != [] {
      var op := ops[0];
      if InBank(m, op.loc, |op.data|) {
        LoadStoreApart(m, op.loc, op.data, l, n);
      }
      hide Load, Store;
      WritesLeave(Do(m, op), ops[1..], l, n);
    }
  }

  /** The run's memory: the writes before, the chunked transfer, the writes after. */
  lemma OneCallReplays(p: Pim, es: seq<Event>, q: Plan, k: nat)
    requires OneCall(p, es, q, k)
    ensures Run(p, es).Some?
    ensures var log := Log(p, es);
            Run(p, es).value.core.mem == Replay(Chunked(Replay(p.core.mem, log[..k]), q), log[k + 1..])
  {
    hide Inv, LegalRun, Run, Log, Chunked, Writes;
    QuietRunIsReplay(p, es);
    var m, log := p.core.mem, Log(p, es);
    assert log == log[..k] + log[k..];
    ReplayConcat(m, log[..k], log[k..]);
    var before := Replay(m, log[..k]);
    assert log[k..][0] == Call(q) && log[k..][1..] == log[k + 1..];
    assert Replay(before, log[k..]) == Replay(Do(before, Call(q)), log[k + 1..]);
  }

  /** A range that the others avoid is, at the end, as the transfer alone leaves it. */
  lemma OneCallShows(p: Pim, es: seq<Event>, q: Plan, k: nat, l: Loc, n: nat) returns (before: Mem)
    requires OneCall(p, es, q, k) && InBank(p.core.mem, l, n) && WritesAvoid(Others(Log(p, es), k), l, n)
    ensures SameSize(before, p.core.mem) && before == Replay(p.core.mem, Log(p, es)[..k])
    ensures Run(p, es).Some? && SameSize(Run(p, es).value.core.mem, p.core.mem)
    ensures Load(Run(p, es).value.core.mem, l, n) == Load(Chunked(before, q), l, n)
    ensures Load(before, l, n) == Load(p.core.mem, l, n)
  {
    OneCallReplays(p, es, q, k);
    hide OneCall, Run, Log, Load, Chunked;
    var log := Log(p, es);
    before := Replay(p.core.mem, log[..k]);
    AvoidParts(log, k, l, n);
    WritesLeave(p.core.mem, log[..k], l, n);
    WritesLeave(Chunked(before, q), log[k + 1..], l, n);
  }

  lemma AvoidParts(log: seq<Op>, k: nat, l: Loc, n: nat)
    requires k < |log| && WritesAvoid(Others(log, k), l, n)
    ensures WritesAvoid(log[..k], l, n) && WritesAvoid(log[k + 1..], l, n)
  {
    var ops := Others(log, k);
    assert forall op :: op in log[..k] ==> op in ops;
    assert forall op :: op in log[k + 1..] ==> op in ops;
  }

  /** Nothing outside the destination changes by the call, whatever the overlap: a range that
      nobody else writes is as it was. */
  lemma CallFrame(p: Pim, es: seq<Event>, q: Plan, k: nat, l: Loc, n: nat)
    requires OneCall(p, es, q, k) && InBank(p.core.mem, l, n)
    requires Disjoint(l, n, q.dst, q.Bytes()) && WritesAvoid(Others(Log(p, es), k), l, n)
    ensures Run(p, es).Some? && SameSize(Run(p, es).value.core.mem, p.core.mem)
    ensures Load(Run(p, es).value.core.mem, l, n) == Load(p.core.mem, l, n)
  {
    var before := OneCallShows(p, es, q, k, l, n);
    ChunkedFrame(before, q, l, n);
  }

  /** Both ranges of a call that others stay apart from, and what it made of the source. */
  lemma CallMoves(p: Pim, es: seq<Event>, q: Plan, k: nat) returns (before: Mem)
    requires OneCall(p, es, q, k) && OthersApart(p, es, q, k)
    ensures SameSize(before, p.core.mem) && Fits(before, q)
    ensures Run(p, es).Some? && SameSize(Run(p, es).value.core.mem, p.core.mem)
    ensures Load(Run(p, es).value.core.mem, q.dst, q.Bytes()) == Load(Chunked(before, q), q.dst, q.Bytes())
    ensures Load(before, q.src, q.Bytes()) == Load(p.core.mem, q.src, q.Bytes())
  {
    OneCallFits(p, es, q, k);
    hide OneCall, Run, Log, Load, Chunked, WritesAvoid, Others;
    before := OneCallShows(p, es, q, k, q.dst, q.Bytes());
    var same := OneCallShows(p, es, q, k, q.src, q.Bytes());
  }

  lemma OneCallFits(p: Pim, es: seq<Event>, q: Plan, k: nat)
    requires OneCall(p, es, q, k)
    ensures Fits(p.core.mem, q)
  {
  }

  /** A copy with a safe overlap ends with the destination equal to the original source. */
  lemma CopyCall(p: Pim, es: seq<Event>, q: Plan, k: nat)
    requires OneCall(p, es, q, k) && OthersApart(p, es, q, k) && SafeOverlap(q) && q.xform == Keep
    ensures Run(p, es).Some? && Fits(p.core.mem, q) && SameSize(Run(p, es).value.core.mem, p.core.mem)
    ensures Load(Run(p, es).value.core.mem, q.dst, q.Bytes()) == Load(p.core.mem, q.src, q.Bytes())
  {
    hide OneCall, OthersApart, Run, Load, Chunked, SafeOverlap;
    OneCallFits(p, es, q, k);
    var before := CallMoves(p, es, q, k);
    CopyResult(before, q);
  }

  /** A multiplication ends with each destination word the scalar times the source word. */
  lemma MultiplyCall(p: Pim, es: seq<Event>, q: Plan, k: nat, i: nat)
    requires OneCall(p, es, q, k) && OthersApart(p, es, q, k) && Harmless(q) && q.xform.Times? && i < q.words
    ensures Run(p, es).Some? && Fits(p.core.mem, q) && SameSize(Run(p, es).value.core.mem, p.core.mem)
    ensures WordAt(Load(Run(p, es).value.core.mem, q.dst, q.Bytes()), i)
         == (q.xform.scalar * WordAt(Load(p.core.mem, q.src, q.Bytes()), i)) % TWO64
  {
    hide OneCall, OthersApart, Run, Load, Chunked, Harmless, WordAt;
    OneCallFits(p, es, q, k);
    var before := CallMoves(p, es, q, k);
    MultiplyResult(before, q, i);
  }

  // ---- what a write carries

  lemma RequestUntouched(p: Pim, e: Event)
    requires Inv(p) && Legal(p, e) && p.core.flight != map[] && !e.Answer?
    ensures Step(p, e).Some? && Inv(Step(p, e).value) && Step(p, e).value.core.flight == p.core.flight
  {
    hide Steady, Target, ClockFsm, Start, LegalCall, Store, Load, Finish, Replay, OpsOf, Respond;
    StepSimulated(p, e);
    if e.Tick? {
      var fn := if Running(p, F1) then F1 else U5;
      assert Engaged(JobIn(p, fn), p.Fsm(fn), p.core);
      ClockWaiting(JobIn(p, fn), p.Fsm(fn), p.core);
    }
  }

  /** However often the device is clocked, and whatever the host does meanwhile, an
      outstanding request keeps its address and payload until it is answered. */
  lemma {:induction false} RequestHeld(p: Pim, es: seq<Event>)
    requires Inv(p) && LegalRun(p, es) && p.core.flight != map[] && forall e :: e in es ==> !e.Answer?
    ensures Run(p, es).Some? && Inv(Run(p, es).value) && Run(p, es).value.core.flight == p.core.flight
    decreases |es|
  {
    hide Inv, Legal, Step;
    if es != [] {
      RequestUntouched(p, es[0]);
      RequestHeld(Step(p, es[0]).value, es[1..]);
    }
  }

  /** So what lands in DRAM for a chunk is the buffer as it stood at issue, although every
      later clock resizes the buffer that the request was made from. */
  lemma BufferAtIssueLands(p: Pim, fn: Fn, es: seq<Event>)
    requires Inv(p) && Running(p, fn) && p.Fsm(fn).dma == Write && !p.Fsm(fn).dstSram
    requires Clock(p).Some? ==> LegalRun(Clock(p).value, es)
    requires forall e :: e in es ==> !e.Answer?
    ensures Clock(p).Some? && Run(Clock(p).value, es).Some?
    ensures var q := Respond(Run(Clock(p).value, es).value, p.core.nextId);
            && q.Some?
            && InBank(q.value.core.mem, Loc(Dram, p.Fsm(fn).dst), |p.core.buffer|)
            && Load(q.value.core.mem, Loc(Dram, p.Fsm(fn).dst), |p.core.buffer|) == p.core.buffer
  {
    hide Steady, Target, ClockFsm, LegalRun, Run, Splice;
    var c := p.core;
    ClockRunning(p, fn);
    IssueWrite(JobIn(p, fn), p.Fsm(fn), c);
    var p1 := Clock(p).value;
    assert p1.core.flight == map[c.nextId := Request(p.Fsm(fn).dst, true, c.buffer)];
    RequestHeld(p1, es);
    var p2 := Run(p1, es).value;
    AnswerSimulated(p2, c.nextId);
    LoadStoreSame(p2.core.mem, Loc(Dram, p.Fsm(fn).dst), c.buffer);
  }

  function InitialSlot(): Slot {
    Slot(INVALID, 0, [0, 0, 0, 0, 0, 0, 0, 0])
  }

  function IdleFsm(x: Xform): Fsm {
    Fsm(Idle, 0, 0, 0, 0, false, false, x)
  }

  /** The device as constructed. */
  predicate Initial(p: Pim) {
    && p.f1 == p.u5 == InitialSlot() && p.copy == IdleFsm(Keep) && p.mul == IdleFsm(Times(0))
    && Quiet(p.core) && |p.core.mem.sram| == SRAM_SIZE
  }
}
