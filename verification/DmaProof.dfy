/** The invariant of a running transfer, and the abstraction function that makes every
    step of an engine a step of a memory on which the call happens all at once. */
module DmaProof {
  import opened PimDef
  import opened Transfer
  import opened Decoder
  import opened DmaSpec

  function LocOf(a: nat): Loc {
    if Decode(a) == SRAM then SramLoc(a) else Loc(Dram, a)
  }

  /** A call as its engine was started on it: the two addresses and the transfer. */
  datatype Job = Job(fn: Fn, dst: nat, src: nat, plan: Plan)

  function JobOf(fn: Fn, p: Params): Job {
    if fn == F1 then Job(fn, p[0], p[1], Plan(LocOf(p[0]), LocOf(p[1]), p[2] / 8, Keep))
    else Job(fn, p[0], p[1], Plan(Loc(Dram, p[0]), Loc(Dram, p[1]), p[3] / 8, Times(p[2])))
  }

  function ByteCount(fn: Fn, p: Params): nat {
    if fn == F1 then p[2] else p[3]
  }

  /** A positive multiple of eight bytes, ranges inside the memories (for SRAM, inside one
      1 KiB window), and for the copy no end in the function page. */
  predicate LegalCall(m: Mem, fn: Fn, p: Params) {
    && |m.sram| == SRAM_SIZE
    && ByteCount(fn, p) > 0 && ByteCount(fn, p) % 8 == 0
    && (fn == F1 ==> Decode(p[0]) != FUNC && Decode(p[1]) != FUNC)
    && Fits(m, JobOf(fn, p).plan)
  }

  predicate Located(a: nat, l: Loc) {
    if l.space == Sram then Decode(a) == SRAM && l == SramLoc(a) else l.off == a
  }

  predicate Sound(j: Job, m: Mem) {
    && |m.sram| == SRAM_SIZE
    && Fits(m, j.plan) && j.plan.words > 0
    && Located(j.dst, j.plan.dst) && Located(j.src, j.plan.src)
    && (j.plan.src.space == Sram ==> j.plan.xform == Keep)
  }

  predicate Quiet(c: Core) {
    c.pending == map[] && c.flight == map[]
  }

  /** Exactly one request is outstanding, the latest one. */
  predicate InFlight(c: Core, r: Request, done: Completion) {
    c.nextId > 0 && c.flight == map[c.nextId - 1 := r] && c.pending == map[c.nextId - 1 := done]
  }

  function Moved(f: Fsm): nat
    requires f.counter <= f.total
  {
    8 * (f.total - f.counter)
  }

  /** The part of the transfer whose chunks have not been written out yet. */
  function Left(j: Job, f: Fsm): Plan
    requires f.counter <= f.total
  {
    Plan(j.plan.dst.Plus(Moved(f)), j.plan.src.Plus(Moved(f)), f.counter, j.plan.xform)
  }

  /** What holds at every stage: the counter, the pointers and the whole-chunk progress. */
  predicate Steady(j: Job, f: Fsm, m: Mem) {
    && Sound(j, m)
    && f.total == j.plan.words && f.counter <= f.total && f.xform == j.plan.xform
    && f.srcSram == (j.plan.src.space == Sram) && f.dstSram == (j.plan.dst.space == Sram)
    && (f.counter == 0 || (f.total - f.counter) % CHUNK_WORDS == 0)
    && f.dst == j.dst + Moved(f)
  }

  predicate Fetching(j: Job, f: Fsm, c: Core, r: Request)
    requires f.counter <= f.total
  {
    && InFlight(c, r, ReadDone(j.fn, Write))
    && !r.isWrite && !f.srcSram && f.counter > 0
    && r.addr == j.src + Moved(f)
    && |r.payload| == |c.buffer| == Left(j, f).Chunk()
    && f.src == r.addr + |r.payload|
  }

  predicate Flushing(j: Job, f: Fsm, c: Core, r: Request)
    requires f.counter <= f.total
  {
    && InFlight(c, r, WriteDone(j.fn, if f.counter > 0 then Read else Done))
    && r.isWrite && !f.dstSram
    && j.dst <= r.addr && r.addr + |r.payload| == j.dst + Moved(f)
    && f.src == j.src + Moved(f)
  }

  predicate Engaged(j: Job, f: Fsm, c: Core) {
    && Steady(j, f, c.mem)
    && match f.dma
       case Read => f.counter > 0 && f.src == j.src + Moved(f) && Quiet(c)
       case Write => f.counter > 0 && |c.buffer| == Left(j, f).Chunk()
                     && f.src == j.src + Moved(f) + |c.buffer| && Quiet(c)
       case Waiting =>
         && c.nextId > 0 && c.nextId - 1 in c.flight
         && var r := c.flight[c.nextId - 1];
            if r.isWrite then Flushing(j, f, c, r) else Fetching(j, f, c, r)
       case Done => f.counter == 0 && Quiet(c)
       case Idle => false
  }

  /** What the memory will be once a running transfer has finished. */
  function Target(j: Job, f: Fsm, c: Core): Mem
    requires Engaged(j, f, c)
  {
    var q := Left(j, f);
    match f.dma
    case Read => Chunked(c.mem, q)
    case Write => Chunked(Store(c.mem, q.dst, c.buffer), q.Rest())
    case Waiting =>
      var r := c.flight[c.nextId - 1];
      if r.isWrite then Chunked(Store(c.mem, Loc(Dram, r.addr), r.payload), q) else Chunked(c.mem, q)
    case Done => c.mem
    case Idle => c.mem
  }

  predicate SameTarget(j: Job, f: Fsm, c: Core, g: Fsm, d: Core) {
    Engaged(j, f, c) && Engaged(j, g, d) && Target(j, g, d) == Target(j, f, c)
  }

  /** Starting an engine on a legal call engages it, with the whole call as its target. */
  lemma StartEngages(fn: Fn, p: Params, f: Fsm, c: Core)
    requires LegalCall(c.mem, fn, p) && Quiet(c)
    ensures Start(fn, f, p).Some?
    ensures Engaged(JobOf(fn, p), Start(fn, f, p).value, c)
    ensures Target(JobOf(fn, p), Start(fn, f, p).value, c) == Chunked(c.mem, JobOf(fn, p).plan)
  {
    assert Left(JobOf(fn, p), Start(fn, f, p).value) == JobOf(fn, p).plan;
  }

  /** One chunk of the transfer, as the engines perform it in two halves. */
  lemma ChunkedUnfolds(m: Mem, q: Plan)
    requires Fits(m, q) && q.words > 0
    ensures Chunked(m, q) == Chunked(Store(m, q.dst, Apply(q.xform, Load(m, q.src, q.Chunk()))), q.Rest())
  {
  }

  // ---- one clock, stage by stage

  lemma ReadSram(j: Job, f: Fsm, c: Core)
    requires Engaged(j, f, c) && f.dma == Read && f.srcSram
    ensures var q := Left(j, f);
            var g := f.(dma := Write, src := f.src + q.Chunk());
            var d := c.(buffer := Load(c.mem, q.src, q.Chunk()));
            ClockFsm(j.fn, f, c) == Some((d, g, false)) && SameTarget(j, f, c, g, d)
  {
    hide Splice, Store;
    var q := Left(j, f);
    var g := f.(dma := Write, src := f.src + q.Chunk());
    WindowStaysSram(j.src, Moved(f));
    assert Left(j, g) == q;
    ChunkedUnfolds(c.mem, q);
  }

  lemma IssueRead(j: Job, f: Fsm, c: Core)
    requires Engaged(j, f, c) && f.dma == Read && !f.srcSram
    ensures var q := Left(j, f);
            var b := Resize(c.buffer, q.Chunk());
            var g := f.(dma := Waiting, src := f.src + q.Chunk());
            var d := Core(b, c.mem, map[c.nextId := ReadDone(j.fn, Write)],
                          map[c.nextId := Request(f.src, false, b)], c.nextId + 1);
            ClockFsm(j.fn, f, c) == Some((d, g, false)) && SameTarget(j, f, c, g, d)
  {
    var q := Left(j, f);
    assert Left(j, f.(dma := Waiting, src := f.src + q.Chunk())) == q;
  }

  function AfterWrite(j: Job, f: Fsm, dma: DmaState): Fsm
    requires f.counter <= f.total
  {
    var q := Left(j, f);
    f.(dma := dma, counter := q.Rest().words, dst := f.dst + q.Chunk())
  }

  lemma LeftAfterWrite(j: Job, f: Fsm, m: Mem, dma: DmaState)
    requires Steady(j, f, m)
    ensures Steady(j, AfterWrite(j, f, dma), m)
    ensures Left(j, AfterWrite(j, f, dma)) == Left(j, f).Rest()
  {
  }

  lemma WriteSram(j: Job, f: Fsm, c: Core)
    requires Engaged(j, f, c) && f.dma == Write && f.dstSram
    ensures var q := Left(j, f);
            var g := AfterWrite(j, f, if q.Rest().words > 0 then Read else Done);
            var d := c.(mem := Store(c.mem, q.dst, c.buffer));
            ClockFsm(j.fn, f, c) == Some((d, g, false)) && SameTarget(j, f, c, g, d)
  {
    hide Splice;
    var q := Left(j, f);
    WindowStaysSram(j.dst, Moved(f));
    LeftAfterWrite(j, f, c.mem, if q.Rest().words > 0 then Read else Done);
  }

  lemma IssueWrite(j: Job, f: Fsm, c: Core)
    requires Engaged(j, f, c) && f.dma == Write && !f.dstSram
    ensures var next := if Left(j, f).Rest().words > 0 then Read else Done;
            var g := AfterWrite(j, f, Waiting);
            var d := Core(c.buffer, c.mem, map[c.nextId := WriteDone(j.fn, next)],
                          map[c.nextId := Request(f.dst, true, c.buffer)], c.nextId + 1);
            ClockFsm(j.fn, f, c) == Some((d, g, false)) && SameTarget(j, f, c, g, d)
  {
    LeftAfterWrite(j, f, c.mem, Waiting);
    assert Left(j, f).dst == Loc(Dram, f.dst);
  }

  /** While waiting, the clock only resizes the buffer; the request keeps its payload. */
  lemma ClockWaiting(j: Job, f: Fsm, c: Core)
    requires Engaged(j, f, c) && f.dma == Waiting
    ensures var d := c.(buffer := Resize(c.buffer, Left(j, f).Chunk()));
            ClockFsm(j.fn, f, c) == Some((d, f, false)) && SameTarget(j, f, c, f, d)
  {
    var r := c.flight[c.nextId - 1];
    var d := c.(buffer := Resize(c.buffer, Left(j, f).Chunk()));
    assert if r.isWrite then Flushing(j, f, d, r) else Fetching(j, f, d, r);
  }

  lemma ClockDone(j: Job, f: Fsm, c: Core)
    requires Engaged(j, f, c) && f.dma == Done
    ensures ClockFsm(j.fn, f, c) == Some((c.(buffer := []), f.(dma := Idle), true))
  {
    assert Resize(c.buffer, 0) == [];
  }

  /** Every clock of an engaged engine succeeds; it keeps the target, and the clock that
      reports completion leaves the target in memory and nothing outstanding. */
  lemma ClockEngaged(j: Job, f: Fsm, c: Core)
    requires Engaged(j, f, c)
    ensures ClockFsm(j.fn, f, c).Some?
    ensures var (d, g, done) := ClockFsm(j.fn, f, c).value;
            if done then f.dma == Done && g == f.(dma := Idle) && Quiet(d) && d.mem == Target(j, f, c)
            else SameTarget(j, f, c, g, d)
  {
    hide ClockFsm;
    match f.dma {
      case Read => if f.srcSram { ReadSram(j, f, c); } else { IssueRead(j, f, c); }
      case Write => if f.dstSram { WriteSram(j, f, c); } else { IssueWrite(j, f, c); }
      case Waiting => ClockWaiting(j, f, c);
      case Done => ClockDone(j, f, c);
    }
  }

  // ---- one answer

  lemma AnswerReadEngaged(j: Job, f: Fsm, c: Core, r: Request, b: seq<byte>)
    requires Engaged(j, f, c) && f.dma == Waiting && r == c.flight[c.nextId - 1] && !r.isWrite
    requires |b| == |r.payload|
    ensures |r.payload| == |c.buffer| == Left(j, f).Chunk() && Left(j, f).src == Loc(Dram, r.addr)
    ensures Engaged(j, f.(dma := Write), Core(b, c.mem, map[], map[], c.nextId))
  {
    assert Left(j, f.(dma := Write)) == Left(j, f);
  }

  lemma AnswerRead(j: Job, f: Fsm, c: Core, r: Request)
    requires Engaged(j, f, c) && f.dma == Waiting && r == c.flight[c.nextId - 1] && !r.isWrite
    ensures InBank(c.mem, Loc(Dram, r.addr), |r.payload|) && |r.payload| == |c.buffer| && |c.buffer| % 8 == 0
    ensures var g := f.(dma := Write);
            var d := Core(Apply(f.xform, Load(c.mem, Loc(Dram, r.addr), |r.payload|)), c.mem, map[], map[], c.nextId);
            SameTarget(j, f, c, g, d)
  {
    hide Splice, Load, Store, Apply;
    var q := Left(j, f);
    AnswerReadEngaged(j, f, c, r, r.payload);
    var b := Apply(f.xform, Load(c.mem, q.src, q.Chunk()));
    AnswerReadEngaged(j, f, c, r, b);
    ChunkedUnfolds(c.mem, q);
  }

  lemma AnswerWrite(j: Job, f: Fsm, c: Core, r: Request)
    requires Engaged(j, f, c) && f.dma == Waiting && r == c.flight[c.nextId - 1] && r.isWrite
    ensures InBank(c.mem, Loc(Dram, r.addr), |r.payload|)
    ensures var g := f.(dma := if f.counter > 0 then Read else Done);
            var d := Core(c.buffer, Store(c.mem, Loc(Dram, r.addr), r.payload), map[], map[], c.nextId);
            SameTarget(j, f, c, g, d)
  {
    var g := f.(dma := if f.counter > 0 then Read else Done);
    assert Left(j, g) == Left(j, f);
  }

  // ---- writes by others

  /** A write clear of both ranges of a running call moves the target by the same write. */
  lemma OthersSlidePast(j: Job, f: Fsm, c: Core, l: Loc, d: seq<byte>)
    requires Engaged(j, f, c) && InBank(c.mem, l, |d|) && Apart(l, |d|, j.plan)
    ensures Engaged(j, f, c.(mem := Store(c.mem, l, d)))
    ensures Target(j, f, c.(mem := Store(c.mem, l, d))) == Store(Target(j, f, c), l, d)
  {
    hide Splice, Load, Store, Chunked, Located;
    OthersKeepEngaged(j, f, c, l, d);
    var q := Left(j, f);
    ApartLeft(j, f, c.mem, l, |d|);
    hide Steady, Disjoint;
    match f.dma {
      case Read =>
        ChunkedCommutes(c.mem, q, l, d);
      case Write =>
        ApartChunk(c.mem, q, l, |d|);
        PendingSlides(c.mem, q.dst, c.buffer, q.Rest(), l, d);
      case Waiting =>
        var r := c.flight[c.nextId - 1];
        if r.isWrite {
          FlushedRange(j, f, c, r);
          FlushedApart(j, r, l, |d|);
          PendingSlides(c.mem, Loc(Dram, r.addr), r.payload, q, l, d);
        } else {
          ChunkedCommutes(c.mem, q, l, d);
        }
      case Done =>
    }
  }

  lemma ApartLeft(j: Job, f: Fsm, m: Mem, l: Loc, n: nat)
    requires Steady(j, f, m) && Apart(l, n, j.plan)
    ensures Apart(l, n, Left(j, f)) && Fits(m, Left(j, f))
  {
  }

  lemma ApartChunk(m: Mem, q: Plan, l: Loc, n: nat)
    requires Fits(m, q) && Apart(l, n, q)
    ensures InBank(m, q.dst, q.Chunk()) && Disjoint(l, n, q.dst, q.Chunk())
    ensures Fits(m, q.Rest()) && Apart(l, n, q.Rest())
  {
  }

  lemma FlushedApart(j: Job, r: Request, l: Loc, n: nat)
    requires Apart(l, n, j.plan) && j.plan.dst.space == Dram
    requires j.plan.dst.off <= r.addr && r.addr + |r.payload| <= j.plan.dst.off + j.plan.Bytes()
    ensures Disjoint(l, n, Loc(Dram, r.addr), |r.payload|)
  {
  }

  /** The chunk being flushed is inside the destination. */
  lemma FlushedRange(j: Job, f: Fsm, c: Core, r: Request)
    requires Engaged(j, f, c) && f.dma == Waiting && r == c.flight[c.nextId - 1] && r.isWrite
    ensures j.plan.dst.space == Dram && j.plan.dst.off <= r.addr
    ensures r.addr + |r.payload| <= j.plan.dst.off + j.plan.Bytes()
    ensures InBank(c.mem, Loc(Dram, r.addr), |r.payload|)
  {
  }

  lemma OthersKeepEngaged(j: Job, f: Fsm, c: Core, l: Loc, d: seq<byte>)
    requires Engaged(j, f, c) && InBank(c.mem, l, |d|)
    ensures Engaged(j, f, c.(mem := Store(c.mem, l, d)))
  {
    if f.dma == Waiting {
      var r := c.flight[c.nextId - 1];
      var e := c.(mem := Store(c.mem, l, d));
      assert if r.isWrite then Flushing(j, f, e, r) else Fetching(j, f, e, r);
    }
  }

  lemma PendingSlides(m: Mem, k: Loc, b: seq<byte>, q: Plan, l: Loc, d: seq<byte>)
    requires InBank(m, k, |b|) && Fits(m, q) && InBank(m, l, |d|)
    requires Disjoint(l, |d|, k, |b|) && Apart(l, |d|, q)
    ensures Chunked(Store(Store(m, l, d), k, b), q) == Store(Chunked(Store(m, k, b), q), l, d)
  {
    StoresCommute(m, l, d, k, b);
    ChunkedCommutes(Store(m, k, b), q, l, d);
  }
}
