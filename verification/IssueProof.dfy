/** What every run of the issue engine keeps, and what a retiring fence guarantees. */
module IssueProof {
  import opened IssueSpec

  // ---- the invariant, piece by piece

  predicate Increasing(q: seq<Req>) {
    forall i, j :: 0 <= i < j < |q| ==> q[i].id < q[j].id
  }

  predicate NoDups(s: seq<nat>) {
    forall i, j :: 0 <= i < j < |s| ==> s[i] != s[j]
  }

  function Ids(q: seq<Req>): set<nat> {
    set r | r in q :: r.id
  }

  function Origins(m: map<nat, Flight>): set<nat> {
    set k | k in m :: m[k].orig
  }

  function OfKind(m: map<nat, Flight>, op: Kind): set<nat> {
    set k | k in m && m[k].op == op
  }

  function Elems(s: seq<nat>): set<nat> {
    set x | x in s
  }

  predicate QueueOk(e: Engine) {
    Increasing(e.pending) && forall r :: r in e.pending ==> r.id < e.nextId
  }

  predicate FlightOk(e: Engine) {
    && (forall k :: k in e.inFlight ==> k < e.nextMem && e.inFlight[k].op != REQ_FENCE)
    && (forall k, l :: k in e.inFlight && l in e.inFlight && k != l ==> e.inFlight[k].orig != e.inFlight[l].orig)
  }

  /** The pending counters are the numbers of requests in flight, within their limits. */
  predicate CountsOk(cfg: Config, e: Engine) {
    forall op :: e.counts.Get(op) == |OfKind(e.inFlight, op)| <= cfg.Max(op)
  }

  /** Every generated request is in exactly one place. */
  ghost predicate Partition(w: World) {
    var p, f, c, r := Ids(w.eng.pending), Origins(w.eng.inFlight), w.hist.completed, Elems(w.hist.retired);
    && (forall x: nat :: x in p || x in f || x in c || x in r <==> x < w.eng.nextId)
    && p !! f !! c !! r
  }

  predicate IssuedOnce(w: World) {
    && NoDups(w.hist.issued) && NoDups(w.hist.retired)
    && Elems(w.hist.issued) == Origins(w.eng.inFlight) + w.hist.completed
  }

  /** Nothing issues before what it was made dependent on completes. */
  predicate DepsOk(w: World) {
    && (forall r :: r in w.eng.pending ==>
          r.id in w.hist.asked && forall d :: d in w.hist.asked[r.id] ==> d in w.hist.completed || d in r.deps)
    && (forall x :: x in w.hist.issued ==>
          x in w.hist.asked && forall d :: d in w.hist.asked[x] ==> d in w.hist.completed)
  }

  /** Nothing younger than a queued fence has issued. */
  ghost predicate FencesOk(w: World) {
    forall f, x :: f in w.eng.pending && f.op == REQ_FENCE && x in w.hist.issued ==> x < f.id
  }

  ghost predicate WorldInv(cfg: Config, w: World) {
    && QueueOk(w.eng) && FlightOk(w.eng) && CountsOk(cfg, w.eng)
    && Partition(w) && IssuedOnce(w) && DepsOk(w) && FencesOk(w)
  }

  // ---- the queue operations

  lemma {:induction false} WithoutMembers(q: seq<Req>, id: nat)
    ensures forall r :: r in Without(q, id) <==> r in q && r.id != id
  {
    if q != [] {
      WithoutMembers(q[..|q| - 1], id);
      assert q == q[..|q| - 1] + [q[|q| - 1]];
    }
  }

  lemma {:induction false} WithoutIncreasing(q: seq<Req>, id: nat)
    requires Increasing(q)
    ensures Increasing(Without(q, id))
  {
    if q != [] {
      var s, last := q[..|q| - 1], q[|q| - 1];
      WithoutIncreasing(s, id);
      WithoutMembers(s, id);
      var t := Without(s, id);
      forall i | 0 <= i < |t|
        ensures t[i].id < last.id
      {
        assert t[i] in s;
      }
    }
  }

  lemma {:induction false} SatisfyMembers(deps: seq<nat>, d: nat)
    ensures forall x :: x in Satisfy(deps, d) ==> x in deps
    ensures forall x :: x in deps && x != d ==> x in Satisfy(deps, d)
    ensures NoDups(deps) ==> d !in Satisfy(deps, d) && NoDups(Satisfy(deps, d))
  {
    if deps != [] {
      SatisfyMembers(deps[1..], d);
      assert deps == [deps[0]] + deps[1..];
      if NoDups(deps) {
        NoDupsSplit(deps[0], deps[1..]);
        if deps[0] != d {
          NoDupsSplit(deps[0], Satisfy(deps[1..], d));
        }
      }
    }
  }

  lemma NoDupsSplit(x: nat, s: seq<nat>)
    ensures NoDups([x] + s) <==> x !in s && NoDups(s)
  {
    var t := [x] + s;
    assert forall i :: 0 <= i < |s| ==> t[i + 1] == s[i];
    if NoDups(t) {
      forall i, j | 0 <= i < j < |s|
        ensures s[i] != s[j]
      {
        assert t[i + 1] != t[j + 1];
      }
      forall i | 0 <= i < |s|
        ensures s[i] != x
      {
        assert t[0] != t[i + 1];
      }
    }
    if x !in s && NoDups(s) {
      forall i, j | 0 <= i < j < |t|
        ensures t[i] != t[j]
      {
        assert t[j] == s[j - 1] && s[j - 1] in s;
        if i > 0 {
          assert t[i] == s[i - 1];
        }
      }
    }
  }

  lemma {:induction false} NotifyAt(q: seq<Req>, d: nat)
    ensures |Notify(q, d)| == |q|
    ensures forall i :: 0 <= i < |q| ==> Notify(q, d)[i] == q[i].(deps := Satisfy(q[i].deps, d))
  {
    if q != [] {
      NotifyAt(q[..|q| - 1], d);
    }
  }

  /** Members of a notified queue are the queue's members, notified. */
  lemma NotifyMembers(q: seq<Req>, d: nat)
    ensures forall r :: r in q ==> r.(deps := Satisfy(r.deps, d)) in Notify(q, d)
    ensures forall s :: s in Notify(q, d) ==>
              exists r :: r in q && s == r.(deps := Satisfy(r.deps, d))
    ensures Ids(Notify(q, d)) == Ids(q)
    ensures Increasing(q) ==> Increasing(Notify(q, d))
  {
    NotifyAt(q, d);
    var t := Notify(q, d);
    forall r | r in q
      ensures r.(deps := Satisfy(r.deps, d)) in t
    {
      var i :| 0 <= i < |q| && q[i] == r;
      assert t[i] in t;
    }
    forall s | s in t
      ensures exists r :: r in q && s == r.(deps := Satisfy(r.deps, d))
    {
      var i :| 0 <= i < |t| && t[i] == s;
      assert q[i] in q;
    }
  }

  // ---- the four primitive steps keep the invariant

  lemma ElemsAppend(s: seq<nat>, x: nat)
    ensures Elems(s + [x]) == Elems(s) + {x}
    ensures NoDups(s) && x !in s ==> NoDups(s + [x])
  {
  }

  lemma OriginsAdd(m: map<nat, Flight>, k: nat, f: Flight)
    requires k !in m
    ensures Origins(m[k := f]) == Origins(m) + {f.orig}
    ensures forall op :: OfKind(m[k := f], op) == if op == f.op then OfKind(m, op) + {k} else OfKind(m, op)
  {
    var n := m[k := f];
    assert forall j :: j in m ==> j in n && n[j] == m[j];
    assert n[k] == f;
  }

  /** Removing a request in flight, whose origin no other shares. */
  lemma OriginsRemove(e: Engine, k: nat)
    requires FlightOk(e) && k in e.inFlight
    ensures Origins(e.inFlight - {k}) == Origins(e.inFlight) - {e.inFlight[k].orig}
    ensures forall op :: OfKind(e.inFlight - {k}, op)
                      == if op == e.inFlight[k].op then OfKind(e.inFlight, op) - {k} else OfKind(e.inFlight, op)
    ensures k in OfKind(e.inFlight, e.inFlight[k].op)
  {
    var m, n := e.inFlight, e.inFlight - {k};
    assert forall j :: j in n ==> j in m && n[j] == m[j];
    forall x | x in Origins(m) - {m[k].orig}
      ensures x in Origins(n)
    {
      var j :| j in m && m[j].orig == x;
      assert j in n;
    }
  }

  lemma PushIds(w: World, f: Made)
    ensures Ids(Push(w, f).eng.pending) == Ids(w.eng.pending) + {w.eng.nextId}
  {
    var r := Req(w.eng.nextId, f.op, f.deps);
    assert forall s :: s in Push(w, f).eng.pending <==> s in w.eng.pending || s == r;
  }

  lemma PushKeeps(cfg: Config, w: World, f: Made)
    requires WorldInv(cfg, w)
    ensures WorldInv(cfg, Push(w, f))
  {
    PushIds(w, f);
    IssuedBelow(cfg, w);
    hide NoDups, Origins, Elems, OfKind;
    var v := Push(w, f);
    assert QueueOk(v.eng) && FlightOk(v.eng);
    assert Partition(v) && IssuedOnce(v);
    PushKeepsOrder(w, f);
  }

  lemma PushKeepsOrder(w: World, f: Made)
    requires DepsOk(w) && FencesOk(w)
    requires forall x :: x in w.hist.issued ==> x < w.eng.nextId
    requires forall r :: r in w.eng.pending ==> r.id < w.eng.nextId
    ensures DepsOk(Push(w, f)) && FencesOk(Push(w, f))
  {
    var r := Req(w.eng.nextId, f.op, f.deps);
    assert forall s :: s in Push(w, f).eng.pending <==> s in w.eng.pending || s == r;
  }

  lemma IssuedBelow(cfg: Config, w: World)
    requires WorldInv(cfg, w)
    ensures forall x :: x in w.hist.issued ==> x < w.eng.nextId
    ensures forall r :: r in w.eng.pending ==> r.id !in w.hist.issued
  {
    assert forall x :: x in w.hist.issued ==> x in Elems(w.hist.issued);
    assert forall r :: r in w.eng.pending ==> r.id in Ids(w.eng.pending);
  }

  /** What makes a queued request eligible: no dependency left, no fence before it, room. */
  ghost predicate Eligible(cfg: Config, w: World, r: Req) {
    && r in w.eng.pending && r.op != REQ_FENCE && r.deps == []
    && w.eng.counts.Get(r.op) < cfg.Max(r.op)
    && forall f :: f in w.eng.pending && f.op == REQ_FENCE ==> r.id < f.id
  }

  lemma IssueMoves(cfg: Config, w: World, r: Req)
    requires WorldInv(cfg, w) && Eligible(cfg, w, r)
    ensures var v := Issue(w, r);
            && Ids(v.eng.pending) == Ids(w.eng.pending) - {r.id}
            && Origins(v.eng.inFlight) == Origins(w.eng.inFlight) + {r.id}
            && Elems(v.hist.issued) == Elems(w.hist.issued) + {r.id}
            && Increasing(v.eng.pending)
            && (forall s :: s in v.eng.pending <==> s in w.eng.pending && s.id != r.id)
  {
    WithoutMembers(w.eng.pending, r.id);
    WithoutIncreasing(w.eng.pending, r.id);
    OriginsAdd(w.eng.inFlight, w.eng.nextMem, Flight(r.id, r.op));
    ElemsAppend(w.hist.issued, r.id);
  }

  lemma IssueCounts(cfg: Config, e: Engine, f: Flight)
    requires FlightOk(e) && CountsOk(cfg, e) && f.op != REQ_FENCE && e.counts.Get(f.op) < cfg.Max(f.op)
    ensures CountsOk(cfg, e.(inFlight := e.inFlight[e.nextMem := f], counts := e.counts.Inc(f.op)))
  {
    OriginsAdd(e.inFlight, e.nextMem, f);
    var m, n := e.inFlight, e.inFlight[e.nextMem := f];
    forall op: Kind
      ensures e.counts.Inc(f.op).Get(op) == |OfKind(n, op)| <= cfg.Max(op)
    {
      assert e.counts.Get(op) == |OfKind(m, op)| <= cfg.Max(op);
      assert OfKind(n, op) == if op == f.op then OfKind(m, op) + {e.nextMem} else OfKind(m, op);
      assert e.nextMem !in OfKind(m, op);
    }
  }

  lemma IssueKeepsEngine(cfg: Config, w: World, r: Req)
    requires WorldInv(cfg, w) && Eligible(cfg, w, r)
    ensures QueueOk(Issue(w, r).eng) && FlightOk(Issue(w, r).eng) && CountsOk(cfg, Issue(w, r).eng)
  {
    hide DepsOk, FencesOk, IssuedOnce;
    IssueMoves(cfg, w, r);
    IssueCounts(cfg, w.eng, Flight(r.id, r.op));
    assert r.id in Ids(w.eng.pending);
    forall k | k in w.eng.inFlight
      ensures w.eng.inFlight[k].orig != r.id
    {
      assert w.eng.inFlight[k].orig in Origins(w.eng.inFlight);
    }
  }

  lemma IssueKeeps(cfg: Config, w: World, r: Req)
    requires WorldInv(cfg, w) && Eligible(cfg, w, r)
    ensures WorldInv(cfg, Issue(w, r))
  {
    IssueKeepsEngine(cfg, w, r);
    hide CountsOk, FlightOk, QueueOk, Increasing;
    IssueMoves(cfg, w, r);
    IssuedBelow(cfg, w);
    ElemsAppend(w.hist.issued, r.id);
    assert r.id in Ids(w.eng.pending);
  }

  lemma RetireKeeps(cfg: Config, w: World, f: Req)
    requires WorldInv(cfg, w) && f in w.eng.pending && f.op == REQ_FENCE
    ensures WorldInv(cfg, Retire(w, f))
    ensures forall s :: s in Retire(w, f).eng.pending <==> s in w.eng.pending && s.id != f.id
  {
    WithoutMembers(w.eng.pending, f.id);
    WithoutIncreasing(w.eng.pending, f.id);
    ElemsAppend(w.hist.retired, f.id);
    assert f.id in Ids(w.eng.pending);
    assert Ids(Retire(w, f).eng.pending) == Ids(w.eng.pending) - {f.id};
    assert f.id !in Elems(w.hist.retired);
  }

  lemma RespondCounts(cfg: Config, e: Engine, k: nat)
    requires FlightOk(e) && CountsOk(cfg, e) && k in e.inFlight
    ensures e.counts.Get(e.inFlight[k].op) > 0
    ensures CountsOk(cfg, e.(inFlight := e.inFlight - {k}, counts := e.counts.Dec(e.inFlight[k].op)))
  {
    OriginsRemove(e, k);
    var f, m, n := e.inFlight[k], e.inFlight, e.inFlight - {k};
    assert e.counts.Get(f.op) == |OfKind(m, f.op)|;
    forall op: Kind
      ensures e.counts.Dec(f.op).Get(op) == |OfKind(n, op)| <= cfg.Max(op)
    {
      assert e.counts.Get(op) == |OfKind(m, op)| <= cfg.Max(op);
      assert OfKind(n, op) == if op == f.op then OfKind(m, op) - {k} else OfKind(m, op);
    }
  }

  lemma RespondKeeps(cfg: Config, w: World, k: nat)
    requires WorldInv(cfg, w) && k in w.eng.inFlight
    ensures Respond(w, k).Some? && WorldInv(cfg, Respond(w, k).value)
  {
    RespondCounts(cfg, w.eng, k);
    hide CountsOk;
    var f := w.eng.inFlight[k];
    OriginsRemove(w.eng, k);
    NotifyMembers(w.eng.pending, f.orig);
    assert f.orig in Origins(w.eng.inFlight);
    var v := Respond(w, k).value;
    assert CountsOk(cfg, v.eng);
    assert QueueOk(v.eng) && FlightOk(v.eng) && Partition(v) && IssuedOnce(v);
    RespondKeepsOrder(w, k, f);
  }

  lemma RespondKeepsOrder(w: World, k: nat, f: Flight)
    requires DepsOk(w) && FencesOk(w) && k in w.eng.inFlight && f == w.eng.inFlight[k] && Respond(w, k).Some?
    ensures DepsOk(Respond(w, k).value) && FencesOk(Respond(w, k).value)
  {
    var v := Respond(w, k).value;
    NotifyMembers(w.eng.pending, f.orig);
    forall s | s in v.eng.pending
      ensures s.id in w.hist.asked
      ensures forall d :: d in w.hist.asked[s.id] ==> d in v.hist.completed || d in s.deps
      ensures s.op == REQ_FENCE ==> forall x :: x in w.hist.issued ==> x < s.id
    {
      var r :| r in w.eng.pending && s == r.(deps := Satisfy(r.deps, f.orig));
      SatisfyMembers(r.deps, f.orig);
    }
  }

  // ---- cycles and runs

  lemma {:induction false} PushAllKeeps(cfg: Config, w: World, fs: seq<Made>)
    requires WorldInv(cfg, w)
    ensures WorldInv(cfg, PushAll(w, fs))
    decreases |fs|
  {
    hide WorldInv, Push;
    if fs != [] {
      PushKeeps(cfg, w, fs[0]);
      PushAllKeeps(cfg, Push(w, fs[0]), fs[1..]);
    }
  }

  /** The loop's view: everything from index i on is still queued, everything queued was in
      the snapshot, and no fence was passed. */
  predicate Window(q: seq<Req>, i: nat, pending: seq<Req>) {
    && i <= |q| && Increasing(q)
    && (forall j :: i <= j < |q| ==> q[j] in pending)
    && (forall r :: r in pending ==> r in q)
    && (forall j :: 0 <= j < i ==> q[j].op != REQ_FENCE)
  }

  lemma NextIsEligible(cfg: Config, q: seq<Req>, i: nat, w: World)
    requires Window(q, i, w.eng.pending) && i < |q| && q[i].op != REQ_FENCE && q[i].deps == []
    requires w.eng.counts.Get(q[i].op) < cfg.Max(q[i].op)
    ensures Eligible(cfg, w, q[i])
  {
    forall f | f in w.eng.pending && f.op == REQ_FENCE
      ensures q[i].id < f.id
    {
      var j :| 0 <= j < |q| && q[j] == f;
      assert j > i;
    }
  }

  lemma WindowMoves(q: seq<Req>, i: nat, w: World)
    requires Window(q, i, w.eng.pending) && i < |q| && q[i].op != REQ_FENCE
    ensures Window(q, i + 1, w.eng.pending) && Window(q, i + 1, Issue(w, q[i]).eng.pending)
  {
    WithoutMembers(w.eng.pending, q[i].id);
  }

  lemma {:induction false} LoopKeeps(cfg: Config, q: seq<Req>, i: nat, n: nat, w: World)
    requires WorldInv(cfg, w) && Window(q, i, w.eng.pending)
    ensures WorldInv(cfg, IssueFrom(cfg, q, i, n, w))
    decreases |q| - i
  {
    hide WorldInv, Window, Issue, Retire, Eligible;
    if i < |q| && n != cfg.perCycle && i != cfg.lookups {
      var r := q[i];
      if r.op == REQ_FENCE {
        assert r in w.eng.pending by { WindowHas(q, i, w.eng.pending); }
        RetireKeeps(cfg, w, r);
      } else {
        WindowMoves(q, i, w);
        if w.eng.counts.Get(r.op) < cfg.Max(r.op) && r.deps == [] {
          NextIsEligible(cfg, q, i, w);
          IssueKeeps(cfg, w, r);
          LoopKeeps(cfg, q, i + 1, n + 1, Issue(w, r));
        } else if w.eng.counts.Get(r.op) < cfg.Max(r.op) || r.op == CUSTOM {
          LoopKeeps(cfg, q, i + 1, n, w);
        }
      }
    }
  }

  lemma WindowHas(q: seq<Req>, i: nat, pending: seq<Req>)
    requires Window(q, i, pending) && i < |q|
    ensures q[i] in pending
  {
  }

  lemma WindowStarts(cfg: Config, w: World)
    requires WorldInv(cfg, w)
    ensures Window(w.eng.pending, 0, w.eng.pending)
  {
  }

  lemma CycleKeeps(cfg: Config, w: World, made: seq<Made>)
    requires WorldInv(cfg, w)
    ensures WorldInv(cfg, Cycle(cfg, w, made))
  {
    hide WorldInv, Window;
    PushAllKeeps(cfg, w, made);
    var v := Filled(cfg, w, made);
    WindowStarts(cfg, v);
    LoopKeeps(cfg, v.eng.pending, 0, 0, v);
  }

  predicate AnswersKnown(cfg: Config, w: World, es: seq<Event>)
    decreases |es|
  {
    es == [] || ((es[0].Answer? ==> es[0].mem in w.eng.inFlight)
                 && (Step(cfg, w, es[0]).Some? ==> AnswersKnown(cfg, Step(cfg, w, es[0]).value, es[1..])))
  }

  /** Over any run, whatever the generator makes and in whatever order memory answers, the
      invariant holds and nothing fails. */
  lemma {:induction false} RunKeeps(cfg: Config, w: World, es: seq<Event>)
    requires WorldInv(cfg, w) && AnswersKnown(cfg, w, es)
    ensures Run(cfg, w, es).Some? && WorldInv(cfg, Run(cfg, w, es).value)
    decreases |es|
  {
    hide WorldInv, Cycle, Respond;
    if es != [] {
      match es[0] {
        case Tick(made) => CycleKeeps(cfg, w, made);
        case Answer(m) => RespondKeeps(cfg, w, m);
      }
      RunKeeps(cfg, Step(cfg, w, es[0]).value, es[1..]);
    }
  }

  function Start(): World {
    World(Engine([], map[], Counts(0, 0, 0), 0, 0), History(map[], [], {}, []))
  }

  lemma StartInv(cfg: Config)
    ensures WorldInv(cfg, Start())
  {
    forall op: Kind
      ensures Counts(0, 0, 0).Get(op) == |OfKind(map[], op)| <= cfg.Max(op)
    {
      assert OfKind(map[], op) == {};
    }
  }

  // ---- consequences

  lemma {:induction false} LoopCompletesNothing(cfg: Config, q: seq<Req>, i: nat, n: nat, w: World)
    ensures IssueFrom(cfg, q, i, n, w).hist.completed == w.hist.completed
    decreases |q| - i
  {
    if i < |q| && n != cfg.perCycle && i != cfg.lookups && q[i].op != REQ_FENCE {
      if w.eng.counts.Get(q[i].op) < cfg.Max(q[i].op) && q[i].deps == [] {
        LoopCompletesNothing(cfg, q, i + 1, n + 1, Issue(w, q[i]));
      } else {
        LoopCompletesNothing(cfg, q, i + 1, n, w);
      }
    }
  }

  lemma {:induction false} PushAllCompletesNothing(w: World, fs: seq<Made>)
    ensures PushAll(w, fs).hist.completed == w.hist.completed
    decreases |fs|
  {
    if fs != [] {
      PushAllCompletesNothing(Push(w, fs[0]), fs[1..]);
    }
  }

  /** Whatever a cycle issues, everything it was made dependent on, duplicates included, had
      completed before the cycle began. */
  lemma IssuedAfterDependencies(cfg: Config, w: World, made: seq<Made>, x: nat)
    requires WorldInv(cfg, w) && x in Cycle(cfg, w, made).hist.issued
    ensures var v := Cycle(cfg, w, made);
            x in v.hist.asked && forall d :: d in v.hist.asked[x] ==> d in w.hist.completed
  {
    CycleKeeps(cfg, w, made);
    var u := Filled(cfg, w, made);
    PushAllCompletesNothing(w, made);
    LoopCompletesNothing(cfg, u.eng.pending, 0, 0, u);
  }

  /** The clock of a finished generator halts only when every request ever generated has
      completed, or was a fence and has retired. */
  lemma HaltMeansAllAnswered(cfg: Config, w: World)
    requires WorldInv(cfg, w) && Halts(w.eng, true)
    ensures w.eng.inFlight == map[]
    ensures forall x: nat :: x < w.eng.nextId <==> x in w.hist.completed || x in w.hist.retired
  {
    if k :| k in w.eng.inFlight {
      RespondCounts(cfg, w.eng, k);
    }
    assert Ids(w.eng.pending) == {} && Origins(w.eng.inFlight) == {};
    assert forall x: nat :: x in Elems(w.hist.retired) <==> x in w.hist.retired;
  }

  /** Exactly when the clock halts: the generator has finished and every request it ever made
      has completed, or was a fence and has retired. */
  lemma HaltsIff(cfg: Config, w: World, finished: bool)
    requires WorldInv(cfg, w)
    ensures Halts(w.eng, finished)
       <==> finished && forall x: nat :: x < w.eng.nextId ==> x in w.hist.completed || x in w.hist.retired
  {
    if Halts(w.eng, finished) {
      HaltMeansAllAnswered(cfg, w);
    } else if finished && forall x: nat :: x < w.eng.nextId ==> x in w.hist.completed || x in w.hist.retired {
      NothingLeft(cfg, w);
    }
  }

  lemma FirstNumber(q: seq<Req>)
    ensures q != [] ==> q[0].id in Ids(q)
  {
    if q != [] {
      assert q[0] in q;
    }
  }

  lemma OriginsOf(m: map<nat, Flight>)
    ensures forall k :: k in m ==> m[k].orig in Origins(m)
  {
  }

  lemma NothingLeft(cfg: Config, w: World)
    requires WorldInv(cfg, w)
    requires forall x: nat :: x < w.eng.nextId ==> x in w.hist.completed || x in w.hist.retired
    ensures w.eng.pending == [] && w.eng.counts == Counts(0, 0, 0)
  {
    hide DepsOk, FencesOk, IssuedOnce, Increasing;
    assert forall x: nat :: x in w.hist.retired ==> x in Elems(w.hist.retired);
    assert Ids(w.eng.pending) == {} && Origins(w.eng.inFlight) == {};
    FirstNumber(w.eng.pending);
    OriginsOf(w.eng.inFlight);
    assert forall op :: w.eng.counts.Get(op) == |OfKind(w.eng.inFlight, op)| == 0;
    assert w.eng.counts.Get(READ) == 0 && w.eng.counts.Get(WRITE) == 0 && w.eng.counts.Get(CUSTOM) == 0;
  }

  /** Kind by kind: each counter is the number of requests of its kind in flight, and within its
      own limit. */
  lemma LimitsKept(cfg: Config, w: World)
    requires WorldInv(cfg, w)
    ensures w.eng.counts.read == |set k | k in w.eng.inFlight && w.eng.inFlight[k].op == READ| <= cfg.maxRead
    ensures w.eng.counts.write == |set k | k in w.eng.inFlight && w.eng.inFlight[k].op == WRITE| <= cfg.maxWrite
    ensures w.eng.counts.custom == |set k | k in w.eng.inFlight && w.eng.inFlight[k].op == CUSTOM| <= cfg.maxCustom
  {
    hide Partition, IssuedOnce, DepsOk, FencesOk, QueueOk, FlightOk;
    var e := w.eng;
    assert forall op :: e.counts.Get(op) == |OfKind(e.inFlight, op)| <= cfg.Max(op);
    assert e.counts.Get(READ) == e.counts.read && e.counts.Get(WRITE) == e.counts.write;
    assert e.counts.Get(CUSTOM) == e.counts.custom;
    assert OfKind(e.inFlight, READ) == set k | k in e.inFlight && e.inFlight[k].op == READ;
    assert OfKind(e.inFlight, WRITE) == set k | k in e.inFlight && e.inFlight[k].op == WRITE;
    assert OfKind(e.inFlight, CUSTOM) == set k | k in e.inFlight && e.inFlight[k].op == CUSTOM;
  }

  /** The three counters together count everything in flight. */
  lemma CountersSum(cfg: Config, w: World)
    requires WorldInv(cfg, w)
    ensures w.eng.counts.read + w.eng.counts.write + w.eng.counts.custom == |w.eng.inFlight|
  {
    hide Partition, IssuedOnce, DepsOk, FencesOk, QueueOk;
    KindsCover(w.eng);
    assert forall op :: w.eng.counts.Get(op) == |OfKind(w.eng.inFlight, op)|;
    assert w.eng.counts.Get(READ) == w.eng.counts.read && w.eng.counts.Get(WRITE) == w.eng.counts.write;
    assert w.eng.counts.Get(CUSTOM) == w.eng.counts.custom;
  }

  lemma KindsCover(e: Engine)
    requires FlightOk(e)
    ensures |OfKind(e.inFlight, READ)| + |OfKind(e.inFlight, WRITE)| + |OfKind(e.inFlight, CUSTOM)| == |e.inFlight|
  {
    KindsPartition(e);
    hide OfKind, FlightOk;
    SizeOfThree(e.inFlight.Keys, OfKind(e.inFlight, READ), OfKind(e.inFlight, WRITE), OfKind(e.inFlight, CUSTOM));
    assert |e.inFlight.Keys| == |e.inFlight|;
  }

  lemma KindsPartition(e: Engine)
    requires FlightOk(e)
    ensures e.inFlight.Keys == OfKind(e.inFlight, READ) + OfKind(e.inFlight, WRITE) + OfKind(e.inFlight, CUSTOM)
    ensures OfKind(e.inFlight, READ) !! OfKind(e.inFlight, WRITE) !! OfKind(e.inFlight, CUSTOM)
  {
  }

  lemma SizeOfThree(k: set<nat>, a: set<nat>, b: set<nat>, c: set<nat>)
    requires k == a + b + c && a !! b !! c
    ensures |k| == |a| + |b| + |c|
  {
    assert |a + b| == |a| + |b|;
    assert (a + b) !! c;
  }
}
