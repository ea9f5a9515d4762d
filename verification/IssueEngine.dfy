/** The issue engine in the program's own form: request objects in a growable queue, an
    issue loop that records what to erase, and a response handler. Every method is proved
    to make the step that IssueSpec defines. */
module IssueEngine {
  import opened IssueSpec
  import opened IssueProof
  import opened RequestQueue

  class GeneratorRequest {
    const id: nat
    const op: Kind
    var dependsOn: seq<nat>

    ghost function Value(): Req
      reads this
    {
      Req(id, op, dependsOn)
    }

    constructor (id: nat, op: Kind, deps: seq<nat>)
      ensures Value() == Req(id, op, deps)
    {
      this.id, this.op, dependsOn := id, op, deps;
    }

    /** Erase the first matching dependency, if any. */
    method SatisfyDependency(d: nat)
      modifies this
      ensures Value() == old(Value()).(deps := Satisfy(old(Value()).deps, d))
    {
      for i := 0 to |dependsOn|
        invariant dependsOn == old(dependsOn) && d !in dependsOn[..i]
      {
        if dependsOn[i] == d {
          SatisfyAt(dependsOn, i, d);
          dependsOn := dependsOn[..i] + dependsOn[i + 1..];
          return;
        }
        assert dependsOn[..i + 1] == dependsOn[..i] + [dependsOn[i]];
      }
      assert dependsOn[..|dependsOn|] == dependsOn;
      SatisfyNone(dependsOn, d);
    }
  }

  lemma {:induction false} SatisfyAt(deps: seq<nat>, i: nat, d: nat)
    requires i < |deps| && deps[i] == d && d !in deps[..i]
    ensures Satisfy(deps, d) == deps[..i] + deps[i + 1..]
  {
    if i > 0 {
      assert deps[0] == deps[..i][0];
      assert deps[1..][..i - 1] == deps[..i][1..];
      SatisfyAt(deps[1..], i - 1, d);
      assert deps[..i] == [deps[0]] + deps[1..][..i - 1];
    }
  }

  lemma {:induction false} SatisfyNone(deps: seq<nat>, d: nat)
    requires d !in deps
    ensures Satisfy(deps, d) == deps
  {
    if deps != [] {
      SatisfyNone(deps[1..], d);
    }
  }

  predicate NoNulls(s: seq<GeneratorRequest?>) {
    forall i :: 0 <= i < |s| ==> s[i] != null
  }

  ghost function Values(s: seq<GeneratorRequest?>): (q: seq<Req>)
    requires NoNulls(s)
    reads s
    ensures |q| == |s|
    ensures forall i :: 0 <= i < |s| ==> q[i] == s[i].Value()
  {
    if s == [] then [] else Values(s[..|s| - 1]) + [s[|s| - 1].Value()]
  }

  lemma ValuesAppend(s: seq<GeneratorRequest?>, r: GeneratorRequest)
    requires NoNulls(s)
    ensures NoNulls(s + [r]) && Values(s + [r]) == Values(s) + [r.Value()]
  {
    assert (s + [r])[..|s|] == s;
  }

  lemma {:induction false} KeptPointwise(s: seq<GeneratorRequest?>, q: seq<Req>, dels: seq<nat>)
    requires NoNulls(s) && |q| == |s| && forall i :: 0 <= i < |s| ==> q[i] == s[i].Value()
    ensures NoNulls(Kept(s, dels)) && |Kept(s, dels)| == |Kept(q, dels)|
    ensures forall i :: 0 <= i < |Kept(s, dels)| ==> Kept(q, dels)[i] == Kept(s, dels)[i].Value()
  {
    if s != [] {
      KeptPointwise(s[..|s| - 1], q[..|s| - 1], dels);
    }
  }

  lemma ValuesOfKept(s: seq<GeneratorRequest?>, dels: seq<nat>)
    requires NoNulls(s) && Distinct(s)
    ensures NoNulls(Kept(s, dels)) && Distinct(Kept(s, dels))
    ensures Values(Kept(s, dels)) == Kept(Values(s), dels)
  {
    KeptPointwise(s, Values(s), dels);
    KeptDistinct(s, dels);
    hide Kept;
    assert |Values(Kept(s, dels))| == |Kept(Values(s), dels)|;
  }

  lemma KeptLast(q: seq<Req>, dels: seq<nat>)
    requires q != []
    ensures Kept(q, dels) == Kept(q[..|q| - 1], dels) + if |q| - 1 in dels then [] else [q[|q| - 1]]
  {
  }

  /** Erasing one more index is dropping that request at once. */
  lemma {:induction false} KeptDrops(q: seq<Req>, dels: seq<nat>, i: nat)
    requires Increasing(q) && i < |q| && i !in dels
    ensures Kept(q, dels + [i]) == Without(Kept(q, dels), q[i].id)
  {
    var n := |q| - 1;
    var s, last := q[..n], q[n];
    KeptLast(q, dels);
    KeptLast(q, dels + [i]);
    WithoutLast(Kept(s, dels), last, q[i].id);
    assert n in dels + [i] <==> n in dels || n == i;
    if i == n {
      KeptBeyond(s, dels, i);
      NoneToDrop(s, dels, last.id);
    } else {
      KeptDrops(s, dels, i);
      assert last.id != q[i].id;
    }
    hide Without, Kept;
    assert Kept(s, dels) + [] == Kept(s, dels);
  }

  lemma WithoutLast(k: seq<Req>, last: Req, id: nat)
    ensures Without(k + [last], id) == Without(k, id) + if last.id == id then [] else [last]
    ensures Without(k + [], id) == Without(k, id)
  {
    assert (k + [last])[..|k|] == k && k + [] == k;
  }

  lemma {:induction false} NoneToDrop(q: seq<Req>, dels: seq<nat>, id: nat)
    requires forall r :: r in q ==> r.id != id
    ensures Without(Kept(q, dels), id) == Kept(q, dels)
  {
    if q != [] {
      var s, last := q[..|q| - 1], q[|q| - 1];
      NoneToDrop(s, dels, id);
      var k := Kept(s, dels);
      if |q| - 1 !in dels {
        assert (k + [last])[..|k|] == k;
      } else {
        assert k + [] == k;
      }
    }
  }

  predicate Room(cfg: Config, w: World, r: Req) {
    w.eng.counts.Get(r.op) < cfg.Max(r.op)
  }

  lemma LoopUnfolds(cfg: Config, q: seq<Req>, i: nat, n: nat, w: World)
    requires i < |q| && n != cfg.perCycle && i != cfg.lookups
    ensures IssueFrom(cfg, q, i, n, w) ==
      if q[i].op == REQ_FENCE then (if w.eng.inFlight == map[] then Retire(w, q[i]) else w)
      else if Room(cfg, w, q[i]) && q[i].deps == [] then IssueFrom(cfg, q, i + 1, n + 1, Issue(w, q[i]))
      else if Room(cfg, w, q[i]) || q[i].op == CUSTOM then IssueFrom(cfg, q, i + 1, n, w)
      else w
  {
  }

  lemma LoopEnds(cfg: Config, q: seq<Req>, i: nat, n: nat, w: World)
    requires i >= |q| || n == cfg.perCycle || i == cfg.lookups
    ensures IssueFrom(cfg, q, i, n, w) == w
  {
  }

  class RequestGenCpu {
    const cfg: Config
    const pendingRequests: MirandaRequestQueue<GeneratorRequest?>
    var inFlight: map<nat, Flight>
    var counts: Counts
    var nextId: nat
    var nextMem: nat
    ghost var hist: History

    ghost predicate Shape()
      reads this, pendingRequests, pendingRequests.theQ
    {
      pendingRequests.Valid() && NoNulls(pendingRequests.Contents()) && Distinct(pendingRequests.Contents())
    }

    ghost function State(): World
      requires Shape()
      reads this, pendingRequests, pendingRequests.theQ, pendingRequests.Contents()
    {
      World(Engine(Values(pendingRequests.Contents()), inFlight, counts, nextId, nextMem), hist)
    }

    constructor (cfg: Config)
      ensures Shape() && fresh(pendingRequests) && fresh(pendingRequests.theQ)
      ensures this.cfg == cfg && State() == Start()
    {
      this.cfg := cfg;
      pendingRequests := new MirandaRequestQueue<GeneratorRequest?>();
      inFlight, counts, nextId, nextMem := map[], Counts(0, 0, 0), 0, 0;
      hist := History(map[], [], {}, []);
    }

    /** What a generator's push_back amounts to. */
    method Enqueue(f: Made)
      requires Shape()
      modifies this`nextId, this`hist, pendingRequests, pendingRequests.theQ
      ensures Shape() && (pendingRequests.theQ == old(pendingRequests.theQ) || fresh(pendingRequests.theQ))
      ensures forall o :: o in pendingRequests.Contents() ==> o in old(pendingRequests.Contents()) || fresh(o)
      ensures State() == Push(old(State()), f)
    {
      hide Values;
      var r := new GeneratorRequest(nextId, f.op, f.deps);
      ghost var q := pendingRequests.Contents();
      ValuesAppend(q, r);
      pendingRequests.PushBack(r);
      hist := hist.(asked := hist.asked[nextId := f.deps]);
      nextId := nextId + 1;
    }

    method Generate(made: seq<Made>)
      requires Shape()
      modifies this`nextId, this`hist, pendingRequests, pendingRequests.theQ
      ensures Shape() && (pendingRequests.theQ == old(pendingRequests.theQ) || fresh(pendingRequests.theQ))
      ensures State() == PushAll(old(State()), made)
    {
      for i := 0 to |made|
        invariant Shape() && (pendingRequests.theQ == old(pendingRequests.theQ) || fresh(pendingRequests.theQ))
        invariant PushAll(State(), made[i..]) == PushAll(old(State()), made)
      {
        assert made[i..][0] == made[i] && made[i..][1..] == made[i + 1..];
        Enqueue(made[i]);
      }
      assert made[|made|..] == [];
    }

    /** The world as the loop has made it so far, the recorded erasures taken as done. */
    ghost function Sofar(q: seq<Req>, dels: seq<nat>): World
      reads this
    {
      World(Engine(Kept(q, dels), inFlight, counts, nextId, nextMem), hist)
    }

    /** Send the i-th request of the queue to memory. */
    method Send(r: GeneratorRequest, ghost q: seq<Req>, ghost dels: seq<nat>, ghost i: nat)
      requires Increasing(q) && i < |q| && i !in dels && r.Value() == q[i]
      modifies this`inFlight, this`counts, this`nextMem, this`hist
      ensures Sofar(q, dels + [i]) == Issue(old(Sofar(q, dels)), q[i])
    {
      KeptDrops(q, dels, i);
      inFlight := inFlight[nextMem := Flight(r.id, r.op)];
      nextMem := nextMem + 1;
      counts := counts.Inc(r.op);
      hist := hist.(issued := hist.issued + [r.id]);
    }

    ghost method NoteRetired(f: GeneratorRequest, q: seq<Req>, dels: seq<nat>, i: nat)
      requires Increasing(q) && i < |q| && i !in dels && f.Value() == q[i]
      modifies this`hist
      ensures Sofar(q, dels + [i]) == Retire(old(Sofar(q, dels)), q[i])
    {
      KeptDrops(q, dels, i);
      hist := hist.(retired := hist.retired + [f.id]);
    }

    /** One turn of the issue loop: retire a fence and stop, send, pass over, or stop. */
    method Consider(r: GeneratorRequest, ghost q: seq<Req>, dels: seq<nat>, i: nat, issuedNow: nat)
      returns (newDels: seq<nat>, newIssued: nat, stop: bool)
      requires Increasing(q) && i < |q| && r.Value() == q[i] && ListedBelow(dels, i)
      requires issuedNow != cfg.perCycle && i != cfg.lookups
      modifies this`inFlight, this`counts, this`nextMem, this`hist
      ensures ListedBelow(newDels, i + 1)
      ensures IssueFrom(cfg, q, i, issuedNow, old(Sofar(q, dels)))
           == if stop then Sofar(q, newDels) else IssueFrom(cfg, q, i + 1, newIssued, Sofar(q, newDels))
    {
      hide Kept, IssueFrom, Increasing, Issue, Retire, Ascending;
      ListMore(dels, i);
      LoopUnfolds(cfg, q, i, issuedNow, Sofar(q, dels));
      newDels, newIssued, stop := dels, issuedNow, false;
      if r.op == REQ_FENCE {
        if |inFlight| == 0 {
          NoteRetired(r, q, dels, i);
          newDels := dels + [i];
        }
        stop := true;
      } else if counts.Get(r.op) < cfg.Max(r.op) {
        if r.dependsOn == [] {
          Send(r, q, dels, i);
          newDels, newIssued := dels + [i], issuedNow + 1;
        }
      } else {
        stop := r.op != CUSTOM;
      }
    }

    /** The issue loop proper: what it issues, and the indices it records to erase. */
    method Scan(ghost q: seq<Req>) returns (delReqs: seq<nat>)
      requires Shape() && q == Values(pendingRequests.Contents()) && Increasing(q)
      modifies this`inFlight, this`counts, this`nextMem, this`hist
      ensures Ascending(delReqs)
      ensures Sofar(q, delReqs) == IssueFrom(cfg, q, 0, 0, old(State()))
    {
      delReqs := [];
      KeptNone(q);
      hide Kept, Values, IssueFrom, Increasing;
      ghost var result := IssueFrom(cfg, q, 0, 0, Sofar(q, []));
      var issuedNow, i, stop := 0, 0, false;
      var size := pendingRequests.Size();
      while i < size && issuedNow != cfg.perCycle && i != cfg.lookups
        invariant i <= size == |q| && ListedBelow(delReqs, i)
        invariant q == Values(pendingRequests.Contents())
        invariant IssueFrom(cfg, q, i, issuedNow, Sofar(q, delReqs)) == result
      {
        var nxt := pendingRequests.At(i);
        delReqs, issuedNow, stop := Consider(nxt, q, delReqs, i, issuedNow);
        if stop {
          return;
        }
        i := i + 1;
      }
      LoopEnds(cfg, q, i, issuedNow, Sofar(q, delReqs));
    }

    /** One cycle's issue: scan, then erase what was recorded. */
    method IssueLoop()
      requires Shape() && Increasing(State().eng.pending)
      modifies this`inFlight, this`counts, this`nextMem, this`hist, pendingRequests
      ensures Shape() && (pendingRequests.theQ == old(pendingRequests.theQ) || fresh(pendingRequests.theQ))
      ensures State() == IssueFrom(cfg, old(State()).eng.pending, 0, 0, old(State()))
    {
      hide Values, Kept, IssueFrom;
      ghost var objs := pendingRequests.Contents();
      ghost var q := Values(objs);
      var delReqs := Scan(q);
      pendingRequests.Erase(delReqs);
      ValuesOfKept(objs, delReqs);
    }

    /** The clock: halt if all is done, else fill the window from the generator and issue. */
    method ClockTick(finished: bool, made: seq<Made>) returns (halted: bool)
      requires Shape() && WorldInv(cfg, State())
      modifies this, pendingRequests, pendingRequests.theQ
      ensures Shape() && (pendingRequests.theQ == old(pendingRequests.theQ) || fresh(pendingRequests.theQ))
      ensures halted <==> finished && forall x: nat :: x < old(nextId) ==>
                x in old(hist).completed || x in old(hist).retired
      ensures State() == if halted then old(State()) else Cycle(cfg, old(State()), made)
      ensures WorldInv(cfg, State())
    {
      hide WorldInv, Values, IssueFrom, PushAll;
      HaltsIff(cfg, State(), finished);
      var size := pendingRequests.Size();
      halted := finished && size == 0 && counts == Counts(0, 0, 0);
      if !halted {
        CycleKeeps(cfg, State(), made);
        PushAllKeeps(cfg, State(), made);
        QueueOfInv(cfg, State());
        QueueOfInv(cfg, PushAll(State(), made));
        if size < cfg.lookups && (!cfg.appLink || counts.read == 0) {
          Generate(made);
        }
        IssueLoop();
      }
    }

    /** A response: forget the request, free its slot, and tell every queued request. */
    method HandleEvent(mem: nat) returns (ok: bool)
      requires Shape()
      modifies this`inFlight, this`counts, this`hist, pendingRequests.Contents()
      ensures ok == IssueSpec.Respond(old(State()), mem).Some?
      ensures ok ==> Shape() && State() == IssueSpec.Respond(old(State()), mem).value
    {
      hide Values, Notify;
      if mem !in inFlight || counts.Get(inFlight[mem].op) == 0 {
        return false;
      }
      var f := inFlight[mem];
      ghost var q := Values(pendingRequests.Contents());
      ghost var objs := pendingRequests.Contents();
      inFlight := inFlight - {mem};
      counts := counts.Dec(f.op);
      hist := hist.(completed := hist.completed + {f.orig});
      var size := pendingRequests.Size();
      for i := 0 to size
        invariant pendingRequests.Contents() == objs
        invariant forall k :: 0 <= k < i ==> objs[k].Value() == q[k].(deps := Satisfy(q[k].deps, f.orig))
        invariant forall k :: i <= k < size ==> objs[k].Value() == q[k]
        invariant inFlight == old(inFlight) - {mem} && counts == old(counts).Dec(f.op)
        invariant hist == old(hist).(completed := old(hist).completed + {f.orig})
      {
        var r := pendingRequests.At(i);
        r.SatisfyDependency(f.orig);
      }
      NotifyAt(q, f.orig);
      assert Values(objs) == Notify(q, f.orig);
      ok := true;
    }
  }

  lemma QueueOfInv(cfg: Config, w: World)
    requires WorldInv(cfg, w)
    ensures Increasing(w.eng.pending)
  {
  }
}
