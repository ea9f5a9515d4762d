/** How long calls take: exact counts of clocks and DRAM requests over whole runs, and
    termination of every run in which requests are answered. */
module DmaProgress {
  import opened PimDef
  import opened Bytes
  import opened Transfer
  import opened Decoder
  import opened DmaSpec
  import opened DmaProof
  import opened DmaRun

  function Chunks(words: nat): nat {
    (words + CHUNK_WORDS - 1) / CHUNK_WORDS
  }

  /** Clocks a running engine still needs, not counting those spent waiting. */
  function ClocksLeft(j: Job, f: Fsm, c: Core): nat
    requires Engaged(j, f, c)
  {
    var n := 2 * Chunks(f.counter);
    match f.dma
    case Read => n + 1
    case Write => n
    case Waiting => if c.flight[c.nextId - 1].isWrite then n + 1 else n
    case _ => 1
  }

  /** DRAM requests on one side (w for the destination) a running engine has still to issue. */
  function RequestsLeft(j: Job, f: Fsm, c: Core, w: bool): nat
    requires Engaged(j, f, c)
  {
    var n := Chunks(f.counter);
    var fetched := f.dma == Write || (f.dma == Waiting && !c.flight[c.nextId - 1].isWrite);
    if w then (if f.dstSram then 0 else n)
    else if f.srcSram then 0 else if fetched then n - 1 else n
  }

  function CallClocks(q: Plan): nat {
    2 * Chunks(q.words) + 1
  }

  /** What a call issues on one side: one request a chunk if that side is DRAM. */
  function CallRequests(q: Plan, w: bool): nat {
    if (if w then q.dst else q.src).space == Sram then 0 else Chunks(q.words)
  }

  lemma StartCosts(fn: Fn, p: Params, f: Fsm, c: Core)
    requires LegalCall(c.mem, fn, p) && Quiet(c)
    ensures Start(fn, f, p).Some? && Engaged(JobOf(fn, p), Start(fn, f, p).value, c)
    ensures ClocksLeft(JobOf(fn, p), Start(fn, f, p).value, c) == CallClocks(JobOf(fn, p).plan)
    ensures forall w :: RequestsLeft(JobOf(fn, p), Start(fn, f, p).value, c, w) == CallRequests(JobOf(fn, p).plan, w)
  {
    hide Target, LegalCall;
    StartEngages(fn, p, f, c);
  }

  lemma ChunkCount(w: nat)
    requires w > 0
    ensures Chunks(w - Min(CHUNK_WORDS, w)) == Chunks(w) - 1
  {
  }

  function One(b: bool): nat {
    if b then 1 else 0
  }

  /** Between c and d a request was issued: a write if w, else a read. */
  predicate Sent(c: Core, d: Core, w: bool) {
    c.nextId !in c.flight && c.nextId in d.flight && d.flight[c.nextId].isWrite == w
  }

  predicate SentOnce(c: Core, d: Core) {
    d.nextId == c.nextId + One(Sent(c, d, false)) + One(Sent(c, d, true))
  }

  /** The books of one clock of an engine. */
  predicate Paid(j: Job, f: Fsm, c: Core, g: Fsm, d: Core) {
    && Engaged(j, f, c) && Engaged(j, g, d)
    && ClocksLeft(j, g, d) + (if f.dma == Waiting then 0 else 1) == ClocksLeft(j, f, c)
    && (forall w :: RequestsLeft(j, g, d, w) + One(Sent(c, d, w)) == RequestsLeft(j, f, c, w))
    && SentOnce(c, d) && |d.flight| + c.nextId == |c.flight| + d.nextId
  }

  lemma ReadCosts(j: Job, f: Fsm, c: Core)
    requires Engaged(j, f, c) && f.dma == Read
    ensures ClockFsm(j.fn, f, c).Some?
    ensures var (d, g, done) := ClockFsm(j.fn, f, c).value; !done && Paid(j, f, c, g, d)
  {
    hide ClockFsm, Target, Store, Load, Steady;
    if f.srcSram {
      ReadSram(j, f, c);
    } else {
      IssueRead(j, f, c);
    }
  }

  lemma WriteCosts(j: Job, f: Fsm, c: Core)
    requires Engaged(j, f, c) && f.dma == Write
    ensures ClockFsm(j.fn, f, c).Some?
    ensures var (d, g, done) := ClockFsm(j.fn, f, c).value; !done && Paid(j, f, c, g, d)
  {
    hide ClockFsm, Target, Store, Load, Steady;
    ChunkCount(f.counter);
    if f.dstSram {
      WriteSram(j, f, c);
    } else {
      IssueWrite(j, f, c);
    }
  }

  /** Every clock outside waiting is one of the clocks left, and its request, if it makes
      one, is one of the requests left; a clock spent waiting is neither. */
  lemma ClockCosts(j: Job, f: Fsm, c: Core)
    requires Engaged(j, f, c)
    ensures ClockFsm(j.fn, f, c).Some?
    ensures var (d, g, done) := ClockFsm(j.fn, f, c).value;
            if done then ClocksLeft(j, f, c) == 1 && (forall w :: RequestsLeft(j, f, c, w) == 0)
                 && d.nextId == c.nextId && d.flight == c.flight == map[]
            else Paid(j, f, c, g, d)
  {
    hide ClockFsm, Target;
    match f.dma {
      case Read => ReadCosts(j, f, c);
      case Write => WriteCosts(j, f, c);
      case Waiting => ClockWaiting(j, f, c);
      case Done => ClockDone(j, f, c);
    }
  }

  // ---- the device

  function Work(p: Pim): nat
    requires Inv(p)
  {
    if Running(p, F1) then ClocksLeft(JobIn(p, F1), p.copy, p.core)
    else if Running(p, U5) then ClocksLeft(JobIn(p, U5), p.mul, p.core)
    else 0
  }

  function Owed(p: Pim, w: bool): nat
    requires Inv(p)
  {
    if Running(p, F1) then RequestsLeft(JobIn(p, F1), p.copy, p.core, w)
    else if Running(p, U5) then RequestsLeft(JobIn(p, U5), p.mul, p.core, w)
    else 0
  }

  /** A clock that finds a running engine with something to do. */
  predicate Active(p: Pim, e: Event) {
    e == Tick && ((Running(p, F1) && p.copy.dma != Waiting) || (Running(p, U5) && p.mul.dma != Waiting))
  }

  function OpClocks(ops: seq<Op>): nat {
    if ops == [] then 0
    else (if ops[0].Call? then CallClocks(ops[0].plan) else 0) + OpClocks(ops[1..])
  }

  function OpRequests(ops: seq<Op>, w: bool): nat {
    if ops == [] then 0
    else (if ops[0].Call? then CallRequests(ops[0].plan, w) else 0) + OpRequests(ops[1..], w)
  }

  lemma {:induction false} CostsConcat(a: seq<Op>, b: seq<Op>)
    ensures OpClocks(a + b) == OpClocks(a) + OpClocks(b)
    ensures forall w :: OpRequests(a + b, w) == OpRequests(a, w) + OpRequests(b, w)
  {
    if a == [] {
      assert a + b == b;
    } else {
      assert (a + b)[0] == a[0] && (a + b)[1..] == a[1..] + b;
      CostsConcat(a[1..], b);
    }
  }

  /** The books of one step: work done plus work left is work there was plus work ordered,
      the same for the requests of each side, and each request issued is outstanding or
      answered. */
  predicate Balanced(p: Pim, e: Event, q: Pim, ops: seq<Op>)
    requires Inv(p) && Inv(q)
  {
    && Work(q) + One(Active(p, e)) == Work(p) + OpClocks(ops)
    && (forall w :: Owed(q, w) + One(Sent(p.core, q.core, w)) == Owed(p, w) + OpRequests(ops, w))
    && SentOnce(p.core, q.core)
    && |q.core.flight| + One(e.Answer?) + p.core.nextId == |p.core.flight| + q.core.nextId
  }

  lemma RunningClock(p: Pim, fn: Fn)
    requires Inv(p) && Running(p, fn)
    ensures Clock(p).Some? && Inv(Clock(p).value) && Balanced(p, Tick, Clock(p).value, [])
  {
    hide Engaged, Target, ClocksLeft, RequestsLeft, ClockFsm;
    TickSimulated(p);
    ClockEngaged(JobIn(p, fn), p.Fsm(fn), p.core);
    ClockCosts(JobIn(p, fn), p.Fsm(fn), p.core);
  }

  /** An answer advances the engine's state, at no cost of its own. */
  lemma AnswerCosts(j: Job, f: Fsm, c: Core, g: Fsm, d: Core)
    requires Engaged(j, f, c) && f.dma == Waiting && Engaged(j, g, d)
    requires var r := c.flight[c.nextId - 1];
             g == f.(dma := if !r.isWrite then Write else if f.counter > 0 then Read else Done)
    ensures ClocksLeft(j, g, d) == ClocksLeft(j, f, c)
    ensures forall w :: RequestsLeft(j, g, d, w) == RequestsLeft(j, f, c, w)
    ensures |c.flight| == 1 && |d.flight| == 0
  {
    hide Steady;
    assert |map[c.nextId - 1 := c.flight[c.nextId - 1]]| == 1;
  }

  lemma AnswerAdvances(p: Pim, fn: Fn, id: nat)
    requires Inv(p) && Running(p, fn) && id in p.core.flight
    ensures p.Fsm(fn).dma == Waiting && id == p.core.nextId - 1 && Respond(p, id).Some?
    ensures var f, r, q := p.Fsm(fn), p.core.flight[id], Respond(p, id).value;
            && q.f1 == p.f1 && q.u5 == p.u5
            && q.core.nextId == p.core.nextId && q.core.flight == map[]
            && q.Fsm(fn) == f.(dma := if !r.isWrite then Write else if f.counter > 0 then Read else Done)
  {
    hide Steady, Target, Store, Load, Apply, Finish, Replay;
    AnswerRunning(p, fn, id);
    assert Engaged(JobIn(p, fn), p.Fsm(fn), p.core);
  }

  lemma AnswerBalanced(p: Pim, fn: Fn, id: nat)
    requires Inv(p) && Running(p, fn) && id in p.core.flight
    ensures Respond(p, id).Some? && Inv(Respond(p, id).value)
    ensures Balanced(p, Answer(id), Respond(p, id).value, [])
  {
    hide Engaged, Respond, ClocksLeft, RequestsLeft, Finish, Replay;
    AnswerRunning(p, fn, id);
    AnswerAdvances(p, fn, id);
    var q := Respond(p, id).value;
    AnswerCosts(JobIn(p, fn), p.Fsm(fn), p.core, q.Fsm(fn), q.core);
  }

  lemma OneOp(op: Op)
    ensures OpClocks([op]) == if op.Call? then CallClocks(op.plan) else 0
    ensures forall w :: OpRequests([op], w) == if op.Call? then CallRequests(op.plan, w) else 0
  {
    assert [op][1..] == [];
    assert OpClocks([]) == 0 && forall w :: OpRequests([], w) == 0;
  }

  /** Writes by others cost nothing. */
  lemma MemoryPutBalanced(p: Pim, e: Event, l: Loc, d: seq<byte>)
    requires Inv(p) && InBank(p.core.mem, l, |d|) && forall fn :: ClearOf(p, fn, l, |d|)
    requires e.Put?
    ensures Inv(WithMem(p, Store(p.core.mem, l, d)))
    ensures Balanced(p, e, WithMem(p, Store(p.core.mem, l, d)), [PutBytes(l, d)])
  {
    hide Steady, Target, Store;
    MemoryPutSimulated(p, l, d);
    OneOp(PutBytes(l, d));
  }

  lemma CommandBalanced(p: Pim, e: Event, fn: Fn, d: word)
    requires Inv(p) && LegalCommand(p, fn, d) && e.Put?
    ensures SlotWrite(p, fn, d).Some? && Inv(SlotWrite(p, fn, d).value)
    ensures Balanced(p, e, SlotWrite(p, fn, d).value,
                     if p.Slot(fn).fstate == READY then [Call(JobIn(p, fn).plan)] else [])
  {
    hide Engaged, Target, ClocksLeft, RequestsLeft, Start, LegalCall;
    CommandSimulated(p, fn, d);
    if p.Slot(fn).fstate == READY {
      var q := JobIn(p, fn).plan;
      StartCosts(fn, p.Slot(fn).params, p.Fsm(fn), p.core);
      OneOp(Call(q));
    }
  }

  lemma StepBalanced(p: Pim, e: Event)
    requires Inv(p) && Legal(p, e)
    ensures Step(p, e).Some? && Inv(Step(p, e).value) && Balanced(p, e, Step(p, e).value, OpsOf(p, e))
  {
    hide Engaged, Target, ClocksLeft, RequestsLeft, ClockFsm, SlotWrite, LegalCommand, Store, Complete;
    match e {
      case Tick =>
        if Running(p, F1) {
          RunningClock(p, F1);
        } else if Running(p, U5) {
          RunningClock(p, U5);
        }
      case Answer(id) => AnswerBalanced(p, if Running(p, F1) then F1 else U5, id);
      case Put(a, d) =>
        if !IsIO(a) {
          MemoryPutBalanced(p, e, Loc(Dram, a), d);
        } else if |d| == 8 && Decode(a) == SRAM {
          MemoryPutBalanced(p, e, SramLoc(a), d);
        } else if |d| == 8 {
          CommandBalanced(p, e, SlotAt(a, 8).value, WordOf(d));
        }
      case Get(_, _) =>
    }
  }

  // ---- runs

  function ActiveTicks(p: Pim, es: seq<Event>): nat
    decreases |es|
  {
    if es == [] then 0
    else One(Active(p, es[0])) + if Step(p, es[0]).Some? then ActiveTicks(Step(p, es[0]).value, es[1..]) else 0
  }

  /** The reads, or if w the writes, that a run issues. */
  function IssuedIn(p: Pim, es: seq<Event>, w: bool): nat
    decreases |es|
  {
    if es == [] || Step(p, es[0]).None? then 0
    else
      var q := Step(p, es[0]).value;
      One(Sent(p.core, q.core, w)) + IssuedIn(q, es[1..], w)
  }

  function Answers(es: seq<Event>): nat {
    if es == [] then 0 else One(es[0].Answer?) + Answers(es[1..])
  }

  /** The books of a whole run. */
  lemma {:induction false} RunBalanced(p: Pim, es: seq<Event>)
    requires Inv(p) && LegalRun(p, es)
    ensures Run(p, es).Some? && Inv(Run(p, es).value)
    ensures var q := Run(p, es).value;
            && Work(q) + ActiveTicks(p, es) == Work(p) + OpClocks(Log(p, es))
            && (forall w :: Owed(q, w) + IssuedIn(p, es, w) == Owed(p, w) + OpRequests(Log(p, es), w))
            && q.core.nextId == p.core.nextId + IssuedIn(p, es, false) + IssuedIn(p, es, true)
            && |q.core.flight| + Answers(es) + p.core.nextId == |p.core.flight| + q.core.nextId
    decreases |es|
  {
    hide Inv, Legal, Step, OpsOf, Work, Owed, Active, Sent;
    if es != [] {
      StepBalanced(p, es[0]);
      var q := Step(p, es[0]).value;
      RunBalanced(q, es[1..]);
      CostsConcat(OpsOf(p, es[0]), Log(q, es[1..]));
    }
  }

  /** Between quiet moments, each call of w words has cost exactly 2*ceil(w/64)+1 clocks
      outside waiting, ceil(w/64) reads if its source is DRAM and ceil(w/64) writes if its
      destination is, all of them answered. */
  lemma RunCosts(p: Pim, es: seq<Event>)
    requires Inv(p) && LegalRun(p, es) && !Running(p, F1) && !Running(p, U5)
    requires Run(p, es).Some? ==> !Running(Run(p, es).value, F1) && !Running(Run(p, es).value, U5)
    ensures Run(p, es).Some?
    ensures ActiveTicks(p, es) == OpClocks(Log(p, es))
    ensures forall w :: IssuedIn(p, es, w) == OpRequests(Log(p, es), w)
    ensures Answers(es) == IssuedIn(p, es, false) + IssuedIn(p, es, true)
  {
    hide Engaged;
    RunBalanced(p, es);
  }

  lemma AtMostOneOutstanding(p: Pim)
    requires Inv(p)
    ensures |p.core.flight| <= 1 && p.core.flight.Keys == p.core.pending.Keys
  {
    hide Steady;
    if Running(p, F1) {
      FlightOfEngaged(JobIn(p, F1), p.copy, p.core);
    } else if Running(p, U5) {
      FlightOfEngaged(JobIn(p, U5), p.mul, p.core);
    }
  }

  lemma FlightOfEngaged(j: Job, f: Fsm, c: Core)
    requires Engaged(j, f, c)
    ensures |c.flight| == One(f.dma == Waiting) && c.flight.Keys == c.pending.Keys
  {
    hide Steady;
    if f.dma == Waiting {
      assert c.flight.Keys == {c.nextId - 1} == c.pending.Keys;
      assert |c.flight.Keys| == |c.flight|;
    }
  }

  // ---- termination

  predicate Busy(p: Pim) {
    Running(p, F1) || Running(p, U5)
  }

  /** How many more clocks outside waiting and answers until the running call is over. */
  function Rank(p: Pim): nat
    requires Inv(p)
  {
    Work(p) + Owed(p, false) + Owed(p, true) + |p.core.flight|
  }

  predicate Moves(p: Pim, e: Event) {
    Active(p, e) || e.Answer?
  }

  predicate StartsCall(p: Pim, e: Event) {
    exists op :: op in OpsOf(p, e) && op.Call?
  }

  lemma {:induction false} NoCallsNoCosts(ops: seq<Op>)
    requires forall op :: op in ops ==> !op.Call?
    ensures OpClocks(ops) == 0 && forall w :: OpRequests(ops, w) == 0
  {
    if ops != [] {
      NoCallsNoCosts(ops[1..]);
    }
  }

  /** A step either brings the end of the call one nearer or leaves it where it is. */
  lemma RankFalls(p: Pim, e: Event)
    requires Inv(p) && Legal(p, e) && !StartsCall(p, e)
    ensures Step(p, e).Some? && Inv(Step(p, e).value)
    ensures Rank(Step(p, e).value) + One(Moves(p, e)) == Rank(p)
  {
    hide Inv, Legal, Step, OpsOf, Work, Owed;
    StepBalanced(p, e);
    NoCallsNoCosts(OpsOf(p, e));
  }

  lemma RankZeroIffDone(p: Pim)
    requires Inv(p)
    ensures Rank(p) == 0 <==> !Busy(p)
  {
    hide Steady;
  }

  /** While a function runs, none can be started. */
  lemma RunningStartsNothing(p: Pim, fn: Fn, e: Event)
    requires Inv(p) && Legal(p, e) && Running(p, fn)
    ensures !StartsCall(p, e)
  {
    hide Engaged, LegalCall;
  }

  predicate Finished(s: Slot, t: Slot) {
    t == s.(fstate := DONE, counter := 0)
  }

  /** A running slot either goes on running or is DONE after the step. */
  lemma RunsOrFinishes(p: Pim, fn: Fn, e: Event)
    requires Inv(p) && Legal(p, e) && Running(p, fn) && Step(p, e).Some?
    ensures var t := Step(p, e).value.Slot(fn); t == p.Slot(fn) || Finished(p.Slot(fn), t)
  {
    hide Engaged, LegalCall, ClockFsm, Complete, Store, HostRead, DmaSpec.Start;
  }

  /** Until it moves, a running call stays where it is. */
  lemma StandsStill(p: Pim, fn: Fn, e: Event)
    requires Inv(p) && Legal(p, e) && Step(p, e).Some? && Running(p, fn) && !Moves(p, e)
    ensures var q := Step(p, e).value;
            Running(q, fn) && q.Fsm(fn).dma == p.Fsm(fn).dma && q.core.nextId == p.core.nextId
  {
    hide Steady, Target, Start, LegalCall, Store, ClockFsm;
    if e.Tick? {
      assert p.Fsm(fn).dma == Waiting;
      assert Engaged(JobIn(p, fn), p.Fsm(fn), p.core);
      ClockWaiting(JobIn(p, fn), p.Fsm(fn), p.core);
    }
  }

  ghost predicate HappensAfter(ev: nat -> Event, n: nat, e: Event) {
    exists m: nat :: n <= m && ev(m) == e
  }

  /** An endless run: legal, the clock ticking for ever and every outstanding request
      answered at some time. */
  ghost predicate FairRun(st: nat -> Pim, ev: nat -> Event) {
    && (forall n: nat :: Inv(st(n)) && Legal(st(n), ev(n)) && Step(st(n), ev(n)) == Some(st(n + 1)))
    && (forall n: nat :: HappensAfter(ev, n, Tick))
    && (forall n: nat, id: nat :: id in st(n).core.flight ==> HappensAfter(ev, n, Answer(id)))
  }

  /** What moves a running call on, whenever it comes: an answer if it waits, else a clock. */
  predicate MovesOn(p: Pim, fn: Fn, e: Event) {
    if p.Fsm(fn).dma == Waiting then p.core.nextId > 0 && e == Answer(p.core.nextId - 1) else e == Tick
  }

  ghost predicate RunsThrough(st: nat -> Pim, fn: Fn, n: nat, k: nat) {
    forall i: nat :: n <= i < k ==> st(i).Slot(fn) == st(n).Slot(fn)
  }

  /** So if that comes at m, the call moves on by then, and not before it moves. */
  lemma {:induction false} MovesBy(st: nat -> Pim, ev: nat -> Event, fn: Fn, n: nat, m: nat) returns (k: nat)
    requires FairRun(st, ev) && n <= m && Running(st(n), fn) && MovesOn(st(n), fn, ev(m))
    ensures n <= k <= m && RunsThrough(st, fn, n, k + 1) && Moves(st(k), ev(k)) && Rank(st(k)) == Rank(st(n))
    decreases m - n
  {
    hide Inv, Legal, Step, StartsCall, Rank;
    if Moves(st(n), ev(n)) {
      k := n;
    } else {
      assert Step(st(n), ev(n)) == Some(st(n + 1));
      RunningStartsNothing(st(n), fn, ev(n));
      RankFalls(st(n), ev(n));
      StandsStill(st(n), fn, ev(n));
      RunsOrFinishes(st(n), fn, ev(n));
      assert n != m;
      k := MovesBy(st, ev, fn, n + 1, m);
    }
  }

  lemma SomethingMoves(st: nat -> Pim, ev: nat -> Event, fn: Fn, n: nat) returns (k: nat)
    requires FairRun(st, ev) && Running(st(n), fn)
    ensures n <= k && RunsThrough(st, fn, n, k + 1) && Moves(st(k), ev(k)) && Rank(st(k)) == Rank(st(n))
  {
    hide Legal, Step, Steady, Rank, Moves;
    var m: nat;
    if st(n).Fsm(fn).dma == Waiting {
      var id := st(n).core.nextId - 1;
      assert Engaged(JobIn(st(n), fn), st(n).Fsm(fn), st(n).core);
      assert id in st(n).core.flight;
      assert HappensAfter(ev, n, Answer(id));
      m :| n <= m && ev(m) == Answer(id);
    } else {
      assert HappensAfter(ev, n, Tick);
      m :| n <= m && ev(m) == Tick;
    }
    k := MovesBy(st, ev, fn, n, m);
  }

  /** Every call that is running in a fair run is DONE at some time, and running until then. */
  lemma {:induction false} FairRunsFinish(st: nat -> Pim, ev: nat -> Event, fn: Fn, n: nat) returns (k: nat)
    requires FairRun(st, ev) && Running(st(n), fn)
    ensures n < k && RunsThrough(st, fn, n, k) && Finished(st(n).Slot(fn), st(k).Slot(fn))
    decreases Rank(st(n))
  {
    hide Inv, Legal, Step, StartsCall, Rank, Moves;
    var m := SomethingMoves(st, ev, fn, n);
    assert st(m).Slot(fn) == st(n).Slot(fn);
    assert Step(st(m), ev(m)) == Some(st(m + 1));
    RunningStartsNothing(st(m), fn, ev(m));
    RankFalls(st(m), ev(m));
    RunsOrFinishes(st(m), fn, ev(m));
    if Running(st(m + 1), fn) {
      k := FairRunsFinish(st, ev, fn, m + 1);
    } else {
      k := m + 1;
    }
  }

  // ---- stretches of an endless run

  function Window(ev: nat -> Event, a: nat, b: nat): seq<Event>
    requires a <= b
  {
    seq(b - a, i requires 0 <= i < b - a => ev(a + i))
  }

  /** Each stretch of an endless run is a legal run, so all that is proved of runs holds. */
  lemma {:induction false} WindowRuns(st: nat -> Pim, ev: nat -> Event, a: nat, b: nat)
    requires FairRun(st, ev) && a <= b
    ensures LegalRun(st(a), Window(ev, a, b)) && Run(st(a), Window(ev, a, b)) == Some(st(b))
    decreases b - a
  {
    hide Inv, Legal, Step;
    if a < b {
      var es := Window(ev, a, b);
      assert es[0] == ev(a) && es[1..] == Window(ev, a + 1, b);
      assert Step(st(a), ev(a)) == Some(st(a + 1));
      WindowRuns(st, ev, a + 1, b);
    }
  }

  // ---- the call that never ends

  /** A slot that is running while its engine is idle, with nothing of its own outstanding. */
  predicate Hung(p: Pim, fn: Fn) {
    Running(p, fn) && p.Fsm(fn).dma == Idle && forall id :: id in p.core.pending ==> p.core.pending[id].fn != fn
  }

  /** RUN with a byte count of zero leaves the engine as it was, which is idle. */
  lemma ZeroBytesHang(p: Pim, fn: Fn, d: word)
    requires Inv(p) && p.Slot(fn).fstate == READY && d % TWO32 == RUN && ByteCount(fn, p.Slot(fn).params) == 0
    requires forall id :: id in p.core.pending ==> p.core.pending[id].fn != fn
    ensures SlotWrite(p, fn, d).Some? && Hung(SlotWrite(p, fn, d).value, fn)
  {
  }

  /** And so it stays, through any clocks, answers and memory traffic, for ever. */
  lemma {:induction false} HungStaysHung(p: Pim, fn: Fn, es: seq<Event>)
    requires Hung(p, fn) && Run(p, es).Some?
    requires forall e :: e in es && e.Put? ==> Decode(e.addr) != FUNC
    ensures Hung(Run(p, es).value, fn)
    decreases |es|
  {
    hide Hung, Step;
    if es != [] {
      HungStep(p, fn, es[0]);
      HungStaysHung(Step(p, es[0]).value, fn, es[1..]);
    }
  }

  lemma HungStep(p: Pim, fn: Fn, e: Event)
    requires Hung(p, fn) && Step(p, e).Some? && (e.Put? ==> Decode(e.addr) != FUNC)
    ensures Hung(Step(p, e).value, fn)
  {
    hide ClockSlot, HostRead, Store, Load, SramWrite;
    if e.Tick? {
      HungSlot(p, fn, F1);
      var (q, done) := ClockSlot(p, F1).value;
      if !done {
        HungSlot(q, fn, U5);
      }
    }
  }

  lemma HungSlot(p: Pim, fn: Fn, g: Fn)
    requires Hung(p, fn) && ClockSlot(p, g).Some?
    ensures Hung(ClockSlot(p, g).value.0, fn)
  {
    hide SramRead, SramWrite, Resize;
  }
}
