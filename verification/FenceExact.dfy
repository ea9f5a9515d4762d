/** What the fence guarantee asks of a generator is exactly what it needs: a request handed over
    before a fence is given good dependencies if and only if no continuation, with answers in
    whatever order, retires a fence out of turn. */
module FenceExact {
  import opened IssueSpec
  import opened IssueProof
  import opened FenceProof

  const FENCE: Made := Made(REQ_FENCE, [])

  /** The request, and a fence behind it. */
  function Fenced(w: World, f: Made): World {
    Push(Push(w, f), FENCE)
  }

  /** Clocks without new requests, and answers. */
  predicate QuietEvent(w: World, e: Event) {
    match e
    case Tick(made) => made == []
    case Answer(m) => m in w.eng.inFlight
  }

  predicate QuietRun(cfg: Config, w: World, es: seq<Event>)
    decreases |es|
  {
    es == []
    || (QuietEvent(w, es[0]) && (Step(cfg, w, es[0]).Some? ==> QuietRun(cfg, Step(cfg, w, es[0]).value, es[1..])))
  }

  ghost predicate OrderlyRun(cfg: Config, w: World, es: seq<Event>)
    decreases |es|
  {
    es == []
    || (Step(cfg, w, es[0]).Some? ==>
          !OutOfTurn(w, Step(cfg, w, es[0]).value) && OrderlyRun(cfg, Step(cfg, w, es[0]).value, es[1..]))
  }

  ghost predicate AlwaysOrderly(cfg: Config, w: World) {
    forall es :: QuietRun(cfg, w, es) ==> OrderlyRun(cfg, w, es)
  }

  // ---- good dependencies suffice

  lemma QuietStep(cfg: Config, w: World, e: Event)
    requires WorldInv(cfg, w) && QuietEvent(w, e)
    ensures Step(cfg, w, e).Some? && WorldInv(cfg, Step(cfg, w, e).value)
    ensures e.Answer? ==> !OutOfTurn(w, Step(cfg, w, e).value)
  {
    hide WorldInv;
    match e {
      case Tick(made) => CycleKeeps(cfg, w, made);
      case Answer(m) => RespondKeeps(cfg, w, m);
    }
  }

  lemma {:induction false} GoodIsOrderly(cfg: Config, w: World, es: seq<Event>)
    requires WorldInv(cfg, w) && GoodDeps(w.eng) && NonZero(cfg) && QuietRun(cfg, w, es)
    ensures OrderlyRun(cfg, w, es)
    decreases |es|
  {
    hide WorldInv, GoodDeps, Step, QuietEvent, OutOfTurn, NonZero;
    if es != [] {
      QuietStep(cfg, w, es[0]);
      GoodStepInTurn(cfg, w, es[0]);
      GoodIsOrderly(cfg, Step(cfg, w, es[0]).value, es[1..]);
    }
  }

  lemma GoodStepInTurn(cfg: Config, w: World, e: Event)
    requires WorldInv(cfg, w) && GoodDeps(w.eng) && NonZero(cfg) && QuietEvent(w, e)
    ensures Step(cfg, w, e).Some? && GoodDeps(Step(cfg, w, e).value.eng)
    ensures !OutOfTurn(w, Step(cfg, w, e).value)
  {
    hide WorldInv, GoodDeps, Cycle, Respond;
    QuietStep(cfg, w, e);
    assert GoodRun(cfg, w, [e]) by { assert [e][1..] == []; }
    StepGood(cfg, w, e);
    if e.Tick? && Cycle(cfg, w, []).hist.retired != w.hist.retired {
      FenceOrders(cfg, w, []);
    }
  }

  /** A cycle that looks at no more than the head of the queue retires only what heads it. */
  lemma {:induction false} NarrowIsOrderly(cfg: Config, w: World, es: seq<Event>)
    requires WorldInv(cfg, w) && (cfg.lookups < 2 || cfg.perCycle == 0) && QuietRun(cfg, w, es)
    ensures OrderlyRun(cfg, w, es)
    decreases |es|
  {
    hide WorldInv, Step, QuietEvent, OutOfTurn;
    if es != [] {
      QuietStep(cfg, w, es[0]);
      NarrowStepInTurn(cfg, w, es[0]);
      NarrowIsOrderly(cfg, Step(cfg, w, es[0]).value, es[1..]);
    }
  }

  lemma NarrowStepInTurn(cfg: Config, w: World, e: Event)
    requires WorldInv(cfg, w) && (cfg.lookups < 2 || cfg.perCycle == 0) && QuietEvent(w, e)
    ensures Step(cfg, w, e).Some? && !OutOfTurn(w, Step(cfg, w, e).value)
  {
    hide WorldInv, Cycle, Respond, OutOfTurn, Filled;
    QuietStep(cfg, w, e);
    if e.Tick? {
      RetirementOrderlyIff(cfg, w, []);
    }
  }

  // ---- and are necessary

  /** d may still be answered, other than by the request numbered x. */
  predicate AwaitedBut(e: Engine, x: nat, d: nat) {
    d in Origins(e.inFlight) || exists p :: p in e.pending && p.id == d && p.op != REQ_FENCE && d != x
  }

  /** Some dependency of r will not be erased as often as it occurs. */
  predicate Doomed(e: Engine, r: Req) {
    exists d :: d in r.deps && multiset(r.deps)[d] > if AwaitedBut(e, r.id, d) then 1 else 0
  }

  /** A doomed request numbered x, the last but for a fence, behind good requests only. */
  ghost predicate Stalled(cfg: Config, w: World, x: nat) {
    && WorldInv(cfg, w) && w.eng.nextId == x + 2 && GoodBelow(w.eng, x)
    && DoomedPair(w.eng, x)
  }

  predicate DoomedPair(e: Engine, x: nat) {
    && (exists r :: r in e.pending && r.id == x && r.op != REQ_FENCE && Doomed(e, r))
    && (exists g :: g in e.pending && g.id == x + 1 && g.op == REQ_FENCE)
  }

  lemma TwiceCounted(s: seq<nat>, i: nat, j: nat)
    requires i < j < |s| && s[i] == s[j]
    ensures multiset(s)[s[i]] >= 2
  {
    assert s == s[..j] + s[j..];
    assert multiset(s) == multiset(s[..j]) + multiset(s[j..]);
    assert s[..j][i] == s[i] && s[j..][0] == s[j];
  }

  /** Dependencies that are not good doom the request from the start. */
  lemma BadMadeIsDoomed(cfg: Config, w: World, f: Made)
    requires WorldInv(cfg, w) && !GoodMade(w.eng, f)
    ensures Doomed(Fenced(w, f).eng, Req(w.eng.nextId, f.op, f.deps))
  {
    var x := w.eng.nextId;
    var v := Fenced(w, f);
    if !NoDups(f.deps) {
      var i, j :| 0 <= i < j < |f.deps| && f.deps[i] == f.deps[j];
      TwiceCounted(f.deps, i, j);
      assert f.deps[i] in f.deps;
    } else {
      var d :| d in f.deps && !Awaited(w.eng, d);
      hide WorldInv;
      assert !AwaitedBut(v.eng, x, d);
      assert multiset(f.deps)[d] > 0;
    }
  }

  lemma FencedQueue(w: World, f: Made)
    ensures var v := Fenced(w, f);
            && v.eng.pending == w.eng.pending + [Req(w.eng.nextId, f.op, f.deps), Req(w.eng.nextId + 1, REQ_FENCE, [])]
            && v.eng.nextId == w.eng.nextId + 2 && v.eng.inFlight == w.eng.inFlight
  {
  }

  lemma BadMadeStalls(cfg: Config, w: World, f: Made)
    requires WorldInv(cfg, w) && GoodDeps(w.eng) && f.op != REQ_FENCE && !GoodMade(w.eng, f)
    ensures Stalled(cfg, Fenced(w, f), w.eng.nextId)
  {
    hide WorldInv, Doomed, GoodMade, Push;
    var x, v := w.eng.nextId, Fenced(w, f);
    BadMadeIsDoomed(cfg, w, f);
    PushKeeps(cfg, w, f);
    PushKeeps(cfg, Push(w, f), FENCE);
    FencedQueue(w, f);
    hide Fenced;
    var r, g := Req(x, f.op, f.deps), Req(x + 1, REQ_FENCE, []);
    assert r in v.eng.pending && g in v.eng.pending;
    forall d | Awaited(w.eng, d)
      ensures Awaited(v.eng, d)
    {
      if p :| p in w.eng.pending && p.id == d && p.op != REQ_FENCE {
        assert p in v.eng.pending;
      }
    }
  }

  // ---- a stalled engine stays stalled

  lemma {:induction false} SatisfyCounts(deps: seq<nat>, d: nat)
    ensures multiset(Satisfy(deps, d)) == multiset(deps) - multiset{d}
  {
    if deps != [] {
      assert deps == [deps[0]] + deps[1..];
      SatisfyCounts(deps[1..], d);
    }
  }

  lemma AnswerStalls(cfg: Config, w: World, x: nat, k: nat)
    requires Stalled(cfg, w, x) && k in w.eng.inFlight
    ensures Respond(w, k).Some? && Stalled(cfg, Respond(w, k).value, x)
    ensures var v := Respond(w, k).value;
            |v.eng.pending| == |w.eng.pending| && |v.eng.inFlight| == |w.eng.inFlight| - 1
  {
    hide WorldInv, GoodBelow, DoomedPair;
    RespondKeeps(cfg, w, k);
    RespondGood(cfg, w, k, x);
    AnswerKeepsPair(cfg, w, x, k);
    NotifyAt(w.eng.pending, w.eng.inFlight[k].orig);
  }

  lemma AnswerKeepsPair(cfg: Config, w: World, x: nat, k: nat)
    requires WorldInv(cfg, w) && DoomedPair(w.eng, x) && k in w.eng.inFlight && Respond(w, k).Some?
    ensures DoomedPair(Respond(w, k).value.eng, x)
  {
    hide WorldInv, Doomed, Notify;
    var v, o := Respond(w, k).value, w.eng.inFlight[k].orig;
    NotifyMembers(w.eng.pending, o);
    var r :| r in w.eng.pending && r.id == x && r.op != REQ_FENCE && Doomed(w.eng, r);
    var g :| g in w.eng.pending && g.id == x + 1 && g.op == REQ_FENCE;
    AnswerDooms(cfg, w, k, r);
    assert r.(deps := Satisfy(r.deps, o)) in v.eng.pending;
    assert g.(deps := Satisfy(g.deps, o)) in v.eng.pending;
  }

  /** An answer makes nothing awaited, and its own request no longer so. */
  lemma AnswerAwaits(cfg: Config, w: World, k: nat, x: nat)
    requires WorldInv(cfg, w) && k in w.eng.inFlight && Respond(w, k).Some?
    ensures forall d :: AwaitedBut(Respond(w, k).value.eng, x, d) ==>
              AwaitedBut(w.eng, x, d) && d != w.eng.inFlight[k].orig
  {
    var v, o := Respond(w, k).value, w.eng.inFlight[k].orig;
    OriginsRemove(w.eng, k);
    NotifyMembers(w.eng.pending, o);
    assert o in Origins(w.eng.inFlight) && o !in Ids(w.eng.pending);
    hide WorldInv, Origins, Satisfy, Notify;
    forall p | p in v.eng.pending
      ensures p.id in Ids(w.eng.pending)
      ensures p.op != REQ_FENCE ==> exists q :: q in w.eng.pending && q.id == p.id && q.op != REQ_FENCE
    {
      assert p.id in Ids(v.eng.pending);
    }
  }

  lemma OriginAwaited(e: Engine, k: nat, x: nat)
    requires k in e.inFlight
    ensures AwaitedBut(e, x, e.inFlight[k].orig)
  {
  }

  lemma AnswerDooms(cfg: Config, w: World, k: nat, r: Req)
    requires WorldInv(cfg, w) && k in w.eng.inFlight && Respond(w, k).Some? && Doomed(w.eng, r)
    ensures Doomed(Respond(w, k).value.eng, r.(deps := Satisfy(r.deps, w.eng.inFlight[k].orig)))
  {
    hide WorldInv, Satisfy, AwaitedBut, Respond;
    AnswerAwaits(cfg, w, k, r.id);
    var v, o := Respond(w, k).value, w.eng.inFlight[k].orig;
    OriginAwaited(w.eng, k, r.id);
    var d :| d in r.deps && multiset(r.deps)[d] > if AwaitedBut(w.eng, r.id, d) then 1 else 0;
    SatisfyCounts(r.deps, o);
    var s := r.(deps := Satisfy(r.deps, o));
    assert multiset(s.deps)[d] == multiset(r.deps)[d] - if d == o then 1 else 0;
    assert d in multiset(s.deps);
  }

  /** A request stays doomed while nothing more comes to be awaited. */
  lemma DoomCarries(e: Engine, v: Engine, x: nat)
    requires DoomedPair(e, x)
    requires forall d :: AwaitedBut(v, x, d) ==> AwaitedBut(e, x, d)
    requires forall r :: r in e.pending && (r.id == x + 1 || (r.id == x && r.deps != [])) ==> r in v.pending
    ensures DoomedPair(v, x)
  {
    hide AwaitedBut;
    var s :| s in e.pending && s.id == x && s.op != REQ_FENCE && Doomed(e, s);
    var g :| g in e.pending && g.id == x + 1 && g.op == REQ_FENCE;
    var d :| d in s.deps && multiset(s.deps)[d] > if AwaitedBut(e, x, d) then 1 else 0;
    assert Doomed(v, s);
    assert s in v.pending && g in v.pending;
  }

  lemma IssueAwaits(cfg: Config, w: World, r: Req, x: nat)
    requires WorldInv(cfg, w) && Eligible(cfg, w, r) && r.id != x
    ensures forall d :: AwaitedBut(Issue(w, r).eng, x, d) ==> AwaitedBut(w.eng, x, d)
  {
    IssueMoves(cfg, w, r);
    hide WorldInv, Origins;
    assert r in w.eng.pending && r.op != REQ_FENCE;
  }

  /** Issuing leaves the doomed request and its fence as they were. */
  lemma IssueDooms(cfg: Config, w: World, r: Req, x: nat)
    requires WorldInv(cfg, w) && Eligible(cfg, w, r) && DoomedPair(w.eng, x)
    ensures DoomedPair(Issue(w, r).eng, x)
  {
    IssueMoves(cfg, w, r);
    NotOfPair(cfg, w, r, x);
    IssueAwaits(cfg, w, r, x);
    hide WorldInv, Eligible, Origins, DoomedPair, AwaitedBut, Issue;
    DoomCarries(w.eng, Issue(w, r).eng, x);
  }

  lemma NotOfPair(cfg: Config, w: World, r: Req, x: nat)
    requires WorldInv(cfg, w) && Eligible(cfg, w, r) && DoomedPair(w.eng, x)
    ensures r.id != x && r.id != x + 1
  {
    hide Partition, IssuedOnce, DepsOk, FencesOk, CountsOk, FlightOk, Increasing, AwaitedBut;
    var s :| s in w.eng.pending && s.id == x && s.op != REQ_FENCE && Doomed(w.eng, s);
    var g :| g in w.eng.pending && g.id == x + 1 && g.op == REQ_FENCE;
    if r.id == x {
      SameIdSame(w.eng.pending, r, s);
    } else if r.id == x + 1 {
      SameIdSame(w.eng.pending, r, g);
    }
  }

  /** And so does retiring an older fence. */
  lemma RetireDooms(cfg: Config, w: World, f: Req, x: nat)
    requires WorldInv(cfg, w) && f in w.eng.pending && f.op == REQ_FENCE && f.id < x && DoomedPair(w.eng, x)
    ensures DoomedPair(Retire(w, f).eng, x)
  {
    RetireKeeps(cfg, w, f);
    hide WorldInv, Origins, DoomedPair;
    assert forall d :: AwaitedBut(Retire(w, f).eng, x, d) ==> AwaitedBut(w.eng, x, d);
    DoomCarries(w.eng, Retire(w, f).eng, x);
  }

  /** How much is left to issue and to answer. */
  function Load(e: Engine): nat {
    2 * |e.pending| + |e.inFlight|
  }

  lemma {:induction false} WithoutShorter(q: seq<Req>, r: Req)
    requires r in q
    ensures |Without(q, r.id)| < |q|
  {
    WithoutNoLonger(q[..|q| - 1], r.id);
    if q[|q| - 1].id != r.id {
      assert r in q[..|q| - 1];
      WithoutShorter(q[..|q| - 1], r);
    }
  }

  lemma {:induction false} WithoutNoLonger(q: seq<Req>, id: nat)
    ensures |Without(q, id)| <= |q|
  {
    if q != [] {
      WithoutNoLonger(q[..|q| - 1], id);
    }
  }

  lemma IssueLightens(w: World, r: Req)
    requires r in w.eng.pending && FlightOk(w.eng)
    ensures Load(Issue(w, r).eng) < Load(w.eng) && Issue(w, r).eng.inFlight != map[]
  {
    WithoutShorter(w.eng.pending, r);
    assert w.eng.nextMem !in w.eng.inFlight;
    assert w.eng.nextMem in Issue(w, r).eng.inFlight;
  }

  /** One turn of the loop that issues. */
  lemma TurnStalls(cfg: Config, q: seq<Req>, i: nat, w: World, x: nat)
    requires WorldInv(cfg, w) && Window(q, i, w.eng.pending) && DoomedPair(w.eng, x)
    requires i < |q| && q[i].op != REQ_FENCE && q[i].deps == [] && w.eng.counts.Get(q[i].op) < cfg.Max(q[i].op)
    ensures var v := Issue(w, q[i]);
            && WorldInv(cfg, v) && Window(q, i + 1, v.eng.pending) && DoomedPair(v.eng, x)
            && v.eng.inFlight != map[] && Load(v.eng) < Load(w.eng)
  {
    assert FlightOk(w.eng);
    hide WorldInv, Window, Issue, Eligible, DoomedPair, Load, FlightOk;
    WindowMoves(q, i, w);
    NextIsEligible(cfg, q, i, w);
    WindowHas(q, i, w.eng.pending);
    IssueKeeps(cfg, w, q[i]);
    IssueDooms(cfg, w, q[i], x);
    IssueLightens(w, q[i]);
  }

  /** Once something is in flight, a cycle only issues. */
  lemma {:induction false} BusyLoopStalls(cfg: Config, q: seq<Req>, i: nat, n: nat, w: World, x: nat)
    requires WorldInv(cfg, w) && Window(q, i, w.eng.pending) && w.eng.inFlight != map[] && DoomedPair(w.eng, x)
    ensures DoomedPair(IssueFrom(cfg, q, i, n, w).eng, x)
    ensures Load(IssueFrom(cfg, q, i, n, w).eng) <= Load(w.eng)
    decreases |q| - i
  {
    hide WorldInv, Window, Issue, DoomedPair, Load;
    WindowInside(q, i, w.eng.pending);
    if i < |q| && n != cfg.perCycle && i != cfg.lookups && q[i].op != REQ_FENCE {
      if w.eng.counts.Get(q[i].op) < cfg.Max(q[i].op) && q[i].deps == [] {
        TurnStalls(cfg, q, i, w, x);
        BusyLoopStalls(cfg, q, i + 1, n + 1, Issue(w, q[i]), x);
      } else if w.eng.counts.Get(q[i].op) < cfg.Max(q[i].op) || q[i].op == CUSTOM {
        WindowMoves(q, i, w);
        BusyLoopStalls(cfg, q, i + 1, n, w, x);
      }
    }
  }

  lemma WindowInside(q: seq<Req>, i: nat, pending: seq<Req>)
    requires Window(q, i, pending)
    ensures i <= |q|
  {
  }

  /** With nothing in flight there is room for every kind. */
  lemma IdleHasRoom(cfg: Config, w: World, op: Kind)
    requires WorldInv(cfg, w) && NonZero(cfg) && w.eng.inFlight == map[] && op != REQ_FENCE
    ensures w.eng.counts.Get(op) < cfg.Max(op)
  {
    assert OfKind(w.eng.inFlight, op) == {};
    assert w.eng.counts.Get(op) == |OfKind(w.eng.inFlight, op)|;
  }

  lemma FirstIsIn(s: seq<nat>)
    ensures s == [] || s[0] in s
  {
  }

  /** The oldest request of an idle engine, if it is good, is a fence or has no dependency. */
  lemma OldestIsFree(cfg: Config, w: World, x: nat)
    requires WorldInv(cfg, w) && GoodBelow(w.eng, x) && w.eng.inFlight == map[]
    requires w.eng.pending != [] && w.eng.pending[0].id < x && w.eng.pending[0].op != REQ_FENCE
    ensures w.eng.pending[0].deps == []
  {
    var r := w.eng.pending[0];
    assert r in w.eng.pending && Origins(w.eng.inFlight) == {};
    assert forall p :: p in w.eng.pending ==> r.id <= p.id;
    FirstIsIn(r.deps);
  }

  /** A cycle of an idle, stalled engine disposes of the oldest of the good requests. */
  lemma OldestGoes(cfg: Config, w: World, x: nat)
    requires Stalled(cfg, w, x) && NonZero(cfg) && cfg.lookups > 0 && cfg.perCycle > 0
    requires w.eng.inFlight == map[] && w.eng.pending != [] && w.eng.pending[0].id < x
    ensures var v := IssueFrom(cfg, w.eng.pending, 0, 0, w);
            DoomedPair(v.eng, x) && Load(v.eng) < Load(w.eng)
  {
    hide WorldInv, Window, Issue, DoomedPair, GoodBelow;
    var q := w.eng.pending;
    if q[0].op == REQ_FENCE {
      RetireDooms(cfg, w, q[0], x);
      WithoutShorter(q, q[0]);
    } else {
      OldestIsFree(cfg, w, x);
      IdleHasRoom(cfg, w, q[0].op);
      WindowStarts(cfg, w);
      TurnStalls(cfg, q, 0, w, x);
      BusyLoopStalls(cfg, q, 1, 1, Issue(w, q[0]), x);
    }
  }

  lemma IdleCycleStalls(cfg: Config, w: World, x: nat)
    requires Stalled(cfg, w, x) && NonZero(cfg) && cfg.lookups > 0 && cfg.perCycle > 0
    requires w.eng.inFlight == map[] && w.eng.pending != [] && w.eng.pending[0].id < x
    ensures Stalled(cfg, Cycle(cfg, w, []), x) && Load(Cycle(cfg, w, []).eng) < Load(w.eng)
  {
    hide WorldInv, Window, IssueFrom, DoomedPair, GoodBelow, Load;
    assert PushAll(w, []) == w;
    CycleKeeps(cfg, w, []);
    WindowStarts(cfg, w);
    LoopGood(cfg, w.eng.pending, 0, 0, w, x);
    LoopNumbers(cfg, w.eng.pending, 0, 0, w);
    OldestGoes(cfg, w, x);
  }

  /** Once the good requests are gone, the next cycle retires the fence past the doomed one. */
  lemma LastCycleOutOfTurn(cfg: Config, w: World, x: nat)
    requires Stalled(cfg, w, x) && NonZero(cfg) && cfg.lookups >= 2 && cfg.perCycle > 0
    requires w.eng.inFlight == map[] && w.eng.pending[0].id >= x
    ensures OutOfTurn(w, Cycle(cfg, w, []))
  {
    var q := w.eng.pending;
    var r :| r in q && r.id == x && r.op != REQ_FENCE && Doomed(w.eng, r);
    var g :| g in q && g.id == x + 1 && g.op == REQ_FENCE;
    var i :| 0 <= i < |q| && q[i] == r;
    var j :| 0 <= j < |q| && q[j] == g;
    assert i == 0 && j == 1 by { PairIsAll(w.eng, x, i, j); }
    IdleHasRoom(cfg, w, r.op);
    assert PassedOver(cfg, w.eng, q[0]);
    assert ReachesFence(cfg, w.eng, 1);
    assert Filled(cfg, w, []) == w;
    hide WorldInv, OutOfTurn, Cycle, ReachesFence;
    RetirementOrderlyIff(cfg, w, []);
  }

  lemma PairIsAll(e: Engine, x: nat, i: nat, j: nat)
    requires QueueOk(e) && e.nextId == x + 2 && i < |e.pending| && j < |e.pending|
    requires e.pending[i].id == x && e.pending[j].id == x + 1 && e.pending[0].id >= x
    ensures i == 0 && j == 1
  {
    assert j > 0 && e.pending[1].id > e.pending[0].id;
  }

  /** So a stalled engine, left to itself and its memory, ends in a retirement out of turn. */
  lemma {:induction false} StalledEndsBadly(cfg: Config, w: World, x: nat) returns (es: seq<Event>)
    requires Stalled(cfg, w, x) && NonZero(cfg) && cfg.lookups >= 2 && cfg.perCycle > 0
    ensures QuietRun(cfg, w, es) && !OrderlyRun(cfg, w, es)
    decreases Load(w.eng)
  {
    hide WorldInv, GoodBelow, Cycle, Respond, OutOfTurn;
    StalledHasQueue(cfg, w, x);
    var first: Event;
    if k :| k in w.eng.inFlight {
      first := Answer(k);
      AnswerStalls(cfg, w, x, k);
    } else {
      first := Tick([]);
      if w.eng.pending[0].id >= x {
        LastCycleOutOfTurn(cfg, w, x);
        es := [first];
        return;
      }
      IdleCycleStalls(cfg, w, x);
    }
    var v := Step(cfg, w, first).value;
    var rest := StalledEndsBadly(cfg, v, x);
    es := [first] + rest;
    assert es[0] == first && es[1..] == rest;
  }

  lemma StalledHasQueue(cfg: Config, w: World, x: nat)
    requires Stalled(cfg, w, x)
    ensures w.eng.pending != []
  {
  }

  /** The exact condition on generators: with limits that are not zero, and a good queue, a
      request followed by a fence never leads to a retirement out of turn if and only if its
      dependencies are free of duplicates and each on a non-fence request still incomplete;
      or the window is so narrow that only the head of the queue is ever looked at. */
  lemma GoodMadeIff(cfg: Config, w: World, f: Made)
    requires WorldInv(cfg, w) && GoodDeps(w.eng) && NonZero(cfg) && f.op != REQ_FENCE
    ensures AlwaysOrderly(cfg, Fenced(w, f))
       <==> GoodMade(w.eng, f) || cfg.lookups < 2 || cfg.perCycle == 0
  {
    hide WorldInv, GoodDeps, QuietRun, OrderlyRun, NonZero;
    var v := Fenced(w, f);
    PushKeeps(cfg, w, f);
    PushKeeps(cfg, Push(w, f), FENCE);
    if GoodMade(w.eng, f) {
      PushGood(cfg, w, f);
      PushGood(cfg, Push(w, f), FENCE);
      forall es | QuietRun(cfg, v, es)
        ensures OrderlyRun(cfg, v, es)
      {
        GoodIsOrderly(cfg, v, es);
      }
    } else if cfg.lookups < 2 || cfg.perCycle == 0 {
      forall es | QuietRun(cfg, v, es)
        ensures OrderlyRun(cfg, v, es)
      {
        NarrowIsOrderly(cfg, v, es);
      }
    } else {
      BadMadeStalls(cfg, w, f);
      var es := StalledEndsBadly(cfg, v, w.eng.nextId);
    }
  }
}
