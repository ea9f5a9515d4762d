/** Fences: when one retires, everything older is done and nothing younger has issued. */
module FenceProof {
  import opened PimDef
  import opened IssueSpec
  import opened IssueProof

  /** d is incomplete and not a fence: in flight, or queued. */
  predicate Awaited(e: Engine, d: nat) {
    d in Origins(e.inFlight) || exists p :: p in e.pending && p.id == d && p.op != REQ_FENCE
  }

  /** What the fence guarantee asks of generators: dependencies without duplicates, naming
      older non-fence requests that are incomplete when they are added. */
  predicate GoodMade(e: Engine, f: Made) {
    NoDups(f.deps) && forall d :: d in f.deps ==> Awaited(e, d)
  }

  predicate AllGood(w: World, fs: seq<Made>)
    decreases |fs|
  {
    fs == [] || (GoodMade(w.eng, fs[0]) && AllGood(Push(w, fs[0]), fs[1..]))
  }

  predicate NonZero(cfg: Config) {
    cfg.maxRead > 0 && cfg.maxWrite > 0 && cfg.maxCustom > 0
  }

  /** What this maintains: every unsatisfied dependency is older and awaited, once. */
  predicate GoodDeps(e: Engine) {
    GoodBelow(e, e.nextId)
  }

  /** The same of the requests with numbers below b only. */
  predicate GoodBelow(e: Engine, b: nat) {
    forall r :: r in e.pending && r.id < b ==>
      NoDups(r.deps) && forall d :: d in r.deps ==> d < r.id && Awaited(e, d)
  }

  lemma AwaitedBelow(cfg: Config, w: World, d: nat)
    requires WorldInv(cfg, w) && Awaited(w.eng, d)
    ensures d < w.eng.nextId
  {
    hide CountsOk, IssuedOnce, DepsOk, FencesOk;
    assert forall x: nat :: x in Origins(w.eng.inFlight) ==> x < w.eng.nextId;
  }

  lemma PushGood(cfg: Config, w: World, f: Made)
    requires WorldInv(cfg, w) && GoodDeps(w.eng) && GoodMade(w.eng, f)
    ensures GoodDeps(Push(w, f).eng)
  {
    assert forall r :: r in w.eng.pending ==> r.id < w.eng.nextId;
    hide WorldInv;
    forall d | d in f.deps
      ensures d < w.eng.nextId
    {
      AwaitedBelow(cfg, w, d);
    }
    forall d | Awaited(w.eng, d)
      ensures Awaited(Push(w, f).eng, d)
    {
      if p :| p in w.eng.pending && p.id == d && p.op != REQ_FENCE {
        assert p in Push(w, f).eng.pending;
      }
    }
  }

  lemma {:induction false} PushAllGood(cfg: Config, w: World, fs: seq<Made>)
    requires WorldInv(cfg, w) && GoodDeps(w.eng) && AllGood(w, fs)
    ensures GoodDeps(PushAll(w, fs).eng)
    decreases |fs|
  {
    hide WorldInv, GoodDeps, Push, GoodMade;
    if fs != [] {
      PushKeeps(cfg, w, fs[0]);
      PushGood(cfg, w, fs[0]);
      PushAllGood(cfg, Push(w, fs[0]), fs[1..]);
    }
  }

  lemma IssueGood(cfg: Config, w: World, r: Req, b: nat)
    requires WorldInv(cfg, w) && Eligible(cfg, w, r) && GoodBelow(w.eng, b)
    ensures GoodBelow(Issue(w, r).eng, b)
  {
    IssueMoves(cfg, w, r);
    hide WorldInv, Eligible, Origins;
    var v := Issue(w, r);
    forall d | Awaited(w.eng, d)
      ensures Awaited(v.eng, d)
    {
      if d !in Origins(v.eng.inFlight) {
        var p :| p in w.eng.pending && p.id == d && p.op != REQ_FENCE;
        assert p in v.eng.pending;
      }
    }
  }

  lemma RetireGood(cfg: Config, w: World, f: Req, b: nat)
    requires WorldInv(cfg, w) && f in w.eng.pending && f.op == REQ_FENCE && GoodBelow(w.eng, b)
    ensures GoodBelow(Retire(w, f).eng, b)
  {
    RetireKeeps(cfg, w, f);
    var v := Retire(w, f);
    forall d | Awaited(w.eng, d)
      ensures Awaited(v.eng, d)
    {
      if d !in Origins(v.eng.inFlight) {
        var p :| p in w.eng.pending && p.id == d && p.op != REQ_FENCE;
        if p.id == f.id {
          SameIdSame(w.eng.pending, p, f);
        }
        assert p in v.eng.pending;
      }
    }
  }

  lemma SameIdSame(q: seq<Req>, a: Req, b: Req)
    requires Increasing(q) && a in q && b in q && a.id == b.id
    ensures a == b
  {
  }

  lemma StillAwaited(w: World, k: nat, d: nat)
    requires FlightOk(w.eng) && k in w.eng.inFlight && Respond(w, k).Some?
    requires Awaited(w.eng, d) && d != w.eng.inFlight[k].orig
    ensures Awaited(Respond(w, k).value.eng, d)
  {
    var v, f := Respond(w, k).value, w.eng.inFlight[k];
    OriginsRemove(w.eng, k);
    hide Origins, FlightOk, OfKind;
    if d !in Origins(v.eng.inFlight) {
      NotifyMembers(w.eng.pending, f.orig);
      var p :| p in w.eng.pending && p.id == d && p.op != REQ_FENCE;
      assert p.(deps := Satisfy(p.deps, f.orig)) in v.eng.pending;
    }
  }

  lemma RespondGood(cfg: Config, w: World, k: nat, b: nat)
    requires WorldInv(cfg, w) && k in w.eng.inFlight && GoodBelow(w.eng, b) && Respond(w, k).Some?
    ensures GoodBelow(Respond(w, k).value.eng, b)
  {
    assert FlightOk(w.eng);
    hide WorldInv, FlightOk, Awaited, Notify;
    var v, f := Respond(w, k).value, w.eng.inFlight[k];
    NotifyMembers(w.eng.pending, f.orig);
    forall s | s in v.eng.pending && s.id < b
      ensures NoDups(s.deps) && forall d :: d in s.deps ==> d < s.id && Awaited(v.eng, d)
    {
      var r :| r in w.eng.pending && s == r.(deps := Satisfy(r.deps, f.orig));
      SatisfyMembers(r.deps, f.orig);
      forall d | d in s.deps
        ensures d < s.id && Awaited(v.eng, d)
      {
        StillAwaited(w, k, d);
      }
    }
  }

  lemma {:induction false} LoopGood(cfg: Config, q: seq<Req>, i: nat, n: nat, w: World, b: nat)
    requires WorldInv(cfg, w) && Window(q, i, w.eng.pending) && GoodBelow(w.eng, b)
    ensures GoodBelow(IssueFrom(cfg, q, i, n, w).eng, b)
    decreases |q| - i
  {
    hide WorldInv, Window, Issue, Retire, Eligible, GoodBelow;
    if i < |q| && n != cfg.perCycle && i != cfg.lookups {
      var r := q[i];
      if r.op == REQ_FENCE {
        WindowHas(q, i, w.eng.pending);
        RetireGood(cfg, w, r, b);
      } else {
        WindowMoves(q, i, w);
        if w.eng.counts.Get(r.op) < cfg.Max(r.op) && r.deps == [] {
          NextIsEligible(cfg, q, i, w);
          IssueKeeps(cfg, w, r);
          IssueGood(cfg, w, r, b);
          LoopGood(cfg, q, i + 1, n + 1, Issue(w, r), b);
        } else if w.eng.counts.Get(r.op) < cfg.Max(r.op) || r.op == CUSTOM {
          LoopGood(cfg, q, i + 1, n, w, b);
        }
      }
    }
  }

  lemma RespondNumbers(w: World, k: nat)
    requires Respond(w, k).Some?
    ensures Respond(w, k).value.eng.nextId == w.eng.nextId
  {
  }

  lemma {:induction false} LoopNumbers(cfg: Config, q: seq<Req>, i: nat, n: nat, w: World)
    ensures IssueFrom(cfg, q, i, n, w).eng.nextId == w.eng.nextId
    decreases |q| - i
  {
    if i < |q| && n != cfg.perCycle && i != cfg.lookups && q[i].op != REQ_FENCE {
      if w.eng.counts.Get(q[i].op) < cfg.Max(q[i].op) && q[i].deps == [] {
        LoopNumbers(cfg, q, i + 1, n + 1, Issue(w, q[i]));
      } else {
        LoopNumbers(cfg, q, i + 1, n, w);
      }
    }
  }

  // ---- the key lemma

  /** Once something is in flight, no fence retires in this cycle. */
  lemma {:induction false} BusyNeverRetires(cfg: Config, q: seq<Req>, i: nat, n: nat, w: World)
    requires w.eng.inFlight != map[]
    ensures IssueFrom(cfg, q, i, n, w).hist.retired == w.hist.retired
    decreases |q| - i
  {
    if i < |q| && n != cfg.perCycle && i != cfg.lookups && q[i].op != REQ_FENCE {
      if w.eng.counts.Get(q[i].op) < cfg.Max(q[i].op) && q[i].deps == [] {
        assert w.eng.nextMem in Issue(w, q[i]).eng.inFlight;
        BusyNeverRetires(cfg, q, i + 1, n + 1, Issue(w, q[i]));
      } else {
        BusyNeverRetires(cfg, q, i + 1, n, w);
      }
    }
  }

  /** A fence behind any queued request always sees something in flight: the oldest queued
      request waits for one, issues in this very cycle, or finds its kind's limit reached. */
  lemma OldestKeepsBusy(cfg: Config, w: World)
    requires WorldInv(cfg, w) && GoodDeps(w.eng) && NonZero(cfg) && w.eng.pending != []
    requires var r := w.eng.pending[0]; r.deps != [] || w.eng.counts.Get(r.op) >= cfg.Max(r.op)
    requires w.eng.pending[0].op != REQ_FENCE
    ensures w.eng.inFlight != map[]
  {
    var r := w.eng.pending[0];
    if r.deps != [] {
      var d := r.deps[0];
      assert d in r.deps && Awaited(w.eng, d) && d < r.id;
      assert d in Origins(w.eng.inFlight);
    } else {
      assert w.eng.counts.Get(r.op) == |OfKind(w.eng.inFlight, r.op)| > 0;
      assert OfKind(w.eng.inFlight, r.op) != {};
    }
  }

  /** So a fence that retires was the oldest in the queue, and retires alone. */
  lemma OnlyOldestRetires(cfg: Config, w: World)
    requires WorldInv(cfg, w) && GoodDeps(w.eng) && NonZero(cfg)
    requires IssueFrom(cfg, w.eng.pending, 0, 0, w).hist.retired != w.hist.retired
    ensures w.eng.pending != [] && w.eng.pending[0].op == REQ_FENCE && w.eng.inFlight == map[]
    ensures IssueFrom(cfg, w.eng.pending, 0, 0, w) == Retire(w, w.eng.pending[0])
  {
    hide WorldInv, GoodDeps, Retire;
    var q := w.eng.pending;
    if q[0].op != REQ_FENCE {
      if w.eng.counts.Get(q[0].op) < cfg.Max(q[0].op) && q[0].deps == [] {
        assert w.eng.nextMem in Issue(w, q[0]).eng.inFlight;
        BusyNeverRetires(cfg, q, 1, 1, Issue(w, q[0]));
      } else {
        OldestKeepsBusy(cfg, w);
        BusyNeverRetires(cfg, q, 0, 0, w);
      }
    }
  }

  /** The fence guarantee: the cycle that retires fence f issues nothing, leaves nothing in
      flight, every older request has by then completed or was itself a retired fence, and
      every request issued so far is older. */
  lemma FenceOrders(cfg: Config, w: World, made: seq<Made>)
    requires WorldInv(cfg, w) && GoodDeps(w.eng) && NonZero(cfg)
    requires Generates(cfg, w.eng) ==> AllGood(w, made)
    requires Cycle(cfg, w, made).hist.retired != w.hist.retired
    ensures var v := Cycle(cfg, w, made);
            && |v.hist.retired| == |w.hist.retired| + 1 && v.eng.inFlight == map[]
            && v.hist.issued == w.hist.issued
            && var f := v.hist.retired[|w.hist.retired|];
               && v.hist.retired == w.hist.retired + [f]
               && (forall x: nat :: x < f ==> x in v.hist.completed || x in v.hist.retired)
               && (forall x :: x in v.hist.issued ==> x < f)
  {
    var u := Filled(cfg, w, made);
    if Generates(cfg, w.eng) {
      PushAllKeeps(cfg, w, made);
      PushAllGood(cfg, w, made);
      PushAllQuiet(w, made);
    }
    OnlyOldestRetires(cfg, u);
    RetireOldest(cfg, u);
  }

  lemma {:induction false} PushAllQuiet(w: World, fs: seq<Made>)
    ensures PushAll(w, fs).hist.retired == w.hist.retired && PushAll(w, fs).hist.issued == w.hist.issued
    decreases |fs|
  {
    if fs != [] {
      PushAllQuiet(Push(w, fs[0]), fs[1..]);
    }
  }

  lemma RetireOldest(cfg: Config, u: World)
    requires WorldInv(cfg, u) && u.eng.pending != [] && u.eng.pending[0].op == REQ_FENCE && u.eng.inFlight == map[]
    ensures var v, f := Retire(u, u.eng.pending[0]), u.eng.pending[0].id;
            && (forall x: nat :: x < f ==> x in v.hist.completed || x in v.hist.retired)
            && (forall x :: x in v.hist.issued ==> x < f)
  {
    hide CountsOk, IssuedOnce, DepsOk;
    var v, f := Retire(u, u.eng.pending[0]), u.eng.pending[0].id;
    assert Origins(u.eng.inFlight) == {};
    forall x: nat | x < f
      ensures x in v.hist.completed || x in v.hist.retired
    {
      assert f < u.eng.nextId;
      assert x !in Ids(u.eng.pending);
      assert x in Elems(u.hist.retired) ==> x in u.hist.retired;
    }
    assert u.eng.pending[0] in u.eng.pending;
  }

  // ---- and over whole runs

  predicate GoodRun(cfg: Config, w: World, es: seq<Event>)
    decreases |es|
  {
    es == []
    || ((es[0].Answer? ==> es[0].mem in w.eng.inFlight)
        && (es[0].Tick? && Generates(cfg, w.eng) ==> AllGood(w, es[0].made))
        && (Step(cfg, w, es[0]).Some? ==> GoodRun(cfg, Step(cfg, w, es[0]).value, es[1..])))
  }

  lemma StepGood(cfg: Config, w: World, e: Event)
    requires WorldInv(cfg, w) && GoodDeps(w.eng) && GoodRun(cfg, w, [e])
    ensures Step(cfg, w, e).Some? && WorldInv(cfg, Step(cfg, w, e).value) && GoodDeps(Step(cfg, w, e).value.eng)
  {
    hide WorldInv, GoodBelow, Respond, Window, AllGood;
    match e {
      case Tick(made) =>
        CycleKeeps(cfg, w, made);
        var u := Filled(cfg, w, made);
        if Generates(cfg, w.eng) {
          PushAllKeeps(cfg, w, made);
          PushAllGood(cfg, w, made);
        }
        WindowStarts(cfg, u);
        LoopGood(cfg, u.eng.pending, 0, 0, u, u.eng.nextId);
        LoopNumbers(cfg, u.eng.pending, 0, 0, u);
      case Answer(m) =>
        RespondKeeps(cfg, w, m);
        RespondGood(cfg, w, m, w.eng.nextId);
        RespondNumbers(w, m);
    }
  }

  /** Good generators keep every state of every run good, so FenceOrders applies at any
      cycle of it. */
  lemma {:induction false} GoodRunKeeps(cfg: Config, w: World, es: seq<Event>)
    requires WorldInv(cfg, w) && GoodDeps(w.eng) && GoodRun(cfg, w, es)
    ensures Run(cfg, w, es).Some?
    ensures WorldInv(cfg, Run(cfg, w, es).value) && GoodDeps(Run(cfg, w, es).value.eng)
    decreases |es|
  {
    hide WorldInv, GoodDeps, Step;
    if es != [] {
      StepGood(cfg, w, es[0]);
      GoodRunKeeps(cfg, Step(cfg, w, es[0]).value, es[1..]);
    }
  }

  // ---- exactly when a retirement is orderly, whatever the dependencies

  /** The loop goes past r without issuing it. */
  predicate PassedOver(cfg: Config, e: Engine, r: Req) {
    r.op != REQ_FENCE && if e.counts.Get(r.op) < cfg.Max(r.op) then r.deps != [] else r.op == CUSTOM
  }

  /** The loop gets past everything before the k-th entry, a fence, and nothing is in flight. */
  predicate ReachesFence(cfg: Config, e: Engine, k: nat) {
    && k < |e.pending| && k < cfg.lookups && cfg.perCycle > 0
    && e.pending[k].op == REQ_FENCE && e.inFlight == map[]
    && forall j :: 0 <= j < k ==> PassedOver(cfg, e, e.pending[j])
  }

  /** A loop that retires a fence has done nothing else. */
  lemma {:induction false} RetiringLoop(cfg: Config, i: nat, w: World) returns (k: nat)
    requires IssueFrom(cfg, w.eng.pending, i, 0, w).hist.retired != w.hist.retired && i <= cfg.lookups
    requires forall j :: 0 <= j < i && j < |w.eng.pending| ==> PassedOver(cfg, w.eng, w.eng.pending[j])
    ensures ReachesFence(cfg, w.eng, k)
    decreases |w.eng.pending| - i
  {
    var r := w.eng.pending[i];
    if r.op == REQ_FENCE {
      k := i;
    } else if w.eng.counts.Get(r.op) < cfg.Max(r.op) && r.deps == [] {
      assert w.eng.nextMem in Issue(w, r).eng.inFlight;
      BusyNeverRetires(cfg, w.eng.pending, i + 1, 1, Issue(w, r));
      assert false;
      k := i;
    } else {
      k := RetiringLoop(cfg, i + 1, w);
    }
  }

  /** And a fence that is reached retires. */
  lemma {:induction false} ReachedRetires(cfg: Config, i: nat, k: nat, w: World)
    requires ReachesFence(cfg, w.eng, k) && i <= k
    ensures IssueFrom(cfg, w.eng.pending, i, 0, w) == Retire(w, w.eng.pending[k])
    decreases k - i
  {
    if i < k {
      assert PassedOver(cfg, w.eng, w.eng.pending[i]);
      ReachedRetires(cfg, i + 1, k, w);
    }
  }

  /** From w to v a fence retired although something older was not done. */
  ghost predicate OutOfTurn(w: World, v: World) {
    |w.hist.retired| < |v.hist.retired|
    && exists x: nat :: x < v.hist.retired[|w.hist.retired|] && x !in v.hist.completed && x !in v.hist.retired
  }

  /** Without any assumption on dependencies or limits, judged by the queue as it is once the
      window is filled: a cycle retires a fence if and only if the loop reaches one, and it
      does so out of turn if and only if that one does not head the queue. */
  lemma RetirementOrderlyIff(cfg: Config, w: World, made: seq<Made>)
    requires WorldInv(cfg, w)
    ensures var e, v := Filled(cfg, w, made).eng, Cycle(cfg, w, made);
            && (v.hist.retired != w.hist.retired <==> exists k: nat :: ReachesFence(cfg, e, k))
            && (OutOfTurn(w, v) <==> exists k: nat :: k > 0 && ReachesFence(cfg, e, k))
  {
    PushAllKeeps(cfg, w, made);
    PushAllQuiet(w, made);
    var u, v := Filled(cfg, w, made), Cycle(cfg, w, made);
    if v.hist.retired != w.hist.retired {
      var k := RetiringLoop(cfg, 0, u);
    }
    if k: nat :| ReachesFence(cfg, u.eng, k) {
      ReachedRetires(cfg, 0, k, u);
      var q := u.eng.pending;
      assert v == Retire(u, q[k]);
      if k == 0 {
        RetireOldest(cfg, u);
      } else {
        assert PassedOver(cfg, u.eng, q[0]);
        HeadIsLeftBehind(cfg, u, q[k]);
      }
    }
  }

  lemma HeadIsLeftBehind(cfg: Config, u: World, f: Req)
    requires WorldInv(cfg, u) && f in u.eng.pending && f.op == REQ_FENCE && u.eng.pending[0].op != REQ_FENCE
    ensures var x, v := u.eng.pending[0].id, Retire(u, f); x < f.id && x !in v.hist.completed && x !in v.hist.retired
  {
    var r := u.eng.pending[0];
    assert r in u.eng.pending && r.id in Ids(u.eng.pending) && r.id !in Elems(u.hist.retired);
  }

  // ---- why dependencies must be free of duplicates

  const ROOMY: Config := Config(1, 1, 1, 8, 8, true)

  /** A read that was given dependency 0 twice, after 0 completed: one of the two stays. */
  const STUCK: World := World(
    Engine([Req(1, READ, [0]), Req(2, REQ_FENCE, [])], map[], Counts(0, 0, 0), 3, 1),
    History(map[0 := [], 1 := [0, 0], 2 := []], [0], {0}, []))

  const TWICE: seq<Made> := [Made(READ, []), Made(READ, [0, 0]), Made(REQ_FENCE, [])]

  const QUEUED: seq<Req> := [Req(0, READ, []), Req(1, READ, [0, 0]), Req(2, REQ_FENCE, [])]

  const FULL: World := World(Engine(QUEUED, map[], Counts(0, 0, 0), 3, 0),
                             History(map[0 := [], 1 := [0, 0], 2 := []], [], {}, []))

  const SENT: World := World(Engine([QUEUED[1], QUEUED[2]], map[0 := Flight(0, READ)], Counts(1, 0, 0), 3, 1),
                             History(map[0 := [], 1 := [0, 0], 2 := []], [0], {}, []))

  lemma QueueFills()
    ensures PushAll(Start(), TWICE) == FULL
  {
    var w2 := Push(Push(Start(), TWICE[0]), TWICE[1]);
    assert TWICE[1..][1..] == [TWICE[2]] && [TWICE[2]][1..] == [];
    assert Push(w2, TWICE[2]) == FULL;
    assert PushAll(w2, [TWICE[2]]) == PushAll(FULL, []);
    assert PushAll(Push(Start(), TWICE[0]), TWICE[1..]) == PushAll(w2, [TWICE[2]]);
  }

  lemma FirstIsSent()
    ensures IssueFrom(ROOMY, QUEUED, 0, 0, FULL) == SENT
  {
    var q := QUEUED;
    assert q[..2] == [q[0], q[1]] && q[..2][..1] == [q[0]] && [q[0]][..0] == [];
    assert Without([q[0]], 0) == Without([], 0) + [] == [];
    assert Without(q[..2], 0) == Without([q[0]], 0) + [q[1]] == [q[1]];
    assert Without(q, 0) == Without(q[..2], 0) + [q[2]] == [q[1], q[2]];
    assert Issue(FULL, q[0]) == SENT;
    assert 0 in SENT.eng.inFlight;
    assert IssueFrom(ROOMY, q, 2, 1, SENT) == SENT;
    assert IssueFrom(ROOMY, q, 1, 1, SENT) == SENT;
  }

  lemma OneOfTwoStays()
    ensures Respond(SENT, 0) == Some(STUCK)
  {
    var p := SENT.eng.pending;
    assert p[..1] == [QUEUED[1]] && p[..1][..0] == [];
    assert Satisfy([0, 0], 0) == [0] && Satisfy([], 0) == [];
    assert Notify(p[..1], 0) == [Req(1, READ, [0])];
    assert Notify(p, 0) == STUCK.eng.pending;
    assert SENT.eng.inFlight - {0} == map[];
    assert SENT.hist.completed + {0} == {0};
    var w := Respond(SENT, 0).value;
    assert w.eng == STUCK.eng && w.hist == STUCK.hist;
  }

  lemma StuckIsReached()
    ensures Run(ROOMY, Start(), [Tick(TWICE), Answer(0)]) == Some(STUCK)
  {
    QueueFills();
    FirstIsSent();
    OneOfTwoStays();
    hide IssueFrom, PushAll, Respond;
    assert [Tick(TWICE), Answer(0)][1..] == [Answer(0)] && [Answer(0)][1..] == [];
    assert Run(ROOMY, SENT, [Answer(0)]) == Run(ROOMY, STUCK, []);
  }

  /** From there the fence retires although the older read never issued. */
  lemma DuplicateDependencyBreaksFence()
    ensures Cycle(ROOMY, STUCK, []).hist.retired == [2]
    ensures Req(1, READ, [0]) in Cycle(ROOMY, STUCK, []).eng.pending
    ensures 1 !in Cycle(ROOMY, STUCK, []).hist.completed
  {
    var q := STUCK.eng.pending;
    assert PushAll(STUCK, []) == STUCK;
    assert IssueFrom(ROOMY, q, 1, 0, STUCK) == Retire(STUCK, q[1]);
    assert IssueFrom(ROOMY, q, 0, 0, STUCK) == Retire(STUCK, q[1]);
    WithoutMembers(q, 2);
    assert q[0] in q;
  }
}
