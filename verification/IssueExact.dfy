/** Exactly what a cycle generates and issues, and what an answer does to the queue, stated
    about the queue as it stood, without the loop. */
module IssueExact {
  import opened IssueSpec
  import opened IssueProof
  import opened FenceProof
  import opened FenceExact

  // ---- generation

  function Numbered(fs: seq<Made>, first: nat): seq<Req> {
    seq(|fs|, i requires 0 <= i < |fs| => Req(first + i, fs[i].op, fs[i].deps))
  }

  lemma {:induction false} PushAllAt(w: World, fs: seq<Made>)
    ensures PushAll(w, fs).eng
         == w.eng.(pending := w.eng.pending + Numbered(fs, w.eng.nextId), nextId := w.eng.nextId + |fs|)
    decreases |fs|
  {
    if fs == [] {
      assert w.eng.pending + Numbered([], w.eng.nextId) == w.eng.pending;
    } else {
      PushAllAt(Push(w, fs[0]), fs[1..]);
      var n := w.eng.nextId;
      assert Numbered(fs, n) == [Req(n, fs[0].op, fs[0].deps)] + Numbered(fs[1..], n + 1);
    }
  }

  /** What the generator makes is queued last, in order and consecutively numbered, if the
      window is not full and, linked to an application, no read is pending; else nothing is. */
  lemma GeneratesIff(cfg: Config, w: World, made: seq<Made>)
    ensures Filled(cfg, w, made).eng ==
      if |w.eng.pending| < cfg.lookups && (cfg.appLink ==> w.eng.counts.read == 0)
      then w.eng.(pending := w.eng.pending + Numbered(made, w.eng.nextId), nextId := w.eng.nextId + |made|)
      else w.eng
  {
    PushAllAt(w, made);
  }

  // ---- issue

  function One(b: bool): nat {
    if b then 1 else 0
  }

  /** How many of the first entries of q go, by the marks g, and how many of those are of a kind. */
  function Going(g: seq<bool>): nat {
    if g == [] then 0 else Going(g[..|g| - 1]) + One(g[|g| - 1])
  }

  function GoingOf(q: seq<Req>, g: seq<bool>, op: Kind): nat
    requires |g| <= |q|
  {
    if g == [] then 0
    else GoingOf(q, g[..|g| - 1], op) + One(g[|g| - 1] && q[|g| - 1].op == op)
  }

  /** The numbers of the entries that go, in queue order. */
  function Gone(q: seq<Req>, g: seq<bool>): seq<nat>
    requires |g| <= |q|
  {
    if g == [] then []
    else Gone(q, g[..|g| - 1]) + if g[|g| - 1] then [q[|g| - 1].id] else []
  }

  /** At the entry after the marked ones there is a free slot for its kind. */
  predicate Free(cfg: Config, e: Engine, g: seq<bool>)
    requires |g| < |e.pending|
  {
    var op := e.pending[|g|].op;
    e.counts.Get(op) + GoingOf(e.pending, g, op) < cfg.Max(op)
  }

  /** Nothing behind the entry after the marked ones is looked at: it is a fence, or a read or
      write for which there is no slot. */
  predicate Stops(cfg: Config, e: Engine, g: seq<bool>)
    requires |g| < |e.pending|
  {
    var op := e.pending[|g|].op;
    op == REQ_FENCE || (op != CUSTOM && !Free(cfg, e, g))
  }

  /** Nothing among the marked entries stops the loop. */
  predicate Clear(cfg: Config, e: Engine, g: seq<bool>) {
    |g| <= |e.pending| && forall k :: 0 <= k < |g| ==> !Stops(cfg, e, g[..k])
  }

  /** The entry after the marked ones goes: nothing before it stops the loop, it is within the
      window, fewer than a cycle's worth have gone, and it has a slot and no dependency left. */
  predicate Goes(cfg: Config, e: Engine, g: seq<bool>)
    requires |g| < |e.pending|
  {
    var r := e.pending[|g|];
    && Clear(cfg, e, g) && |g| < cfg.lookups && Going(g) < cfg.perCycle
    && r.op != REQ_FENCE && r.deps == [] && Free(cfg, e, g)
  }

  /** The marks of a cycle: each entry goes exactly if the entries before it let it. */
  predicate Marks(cfg: Config, e: Engine, g: seq<bool>) {
    |g| <= |e.pending| && forall k :: 0 <= k < |g| ==> (g[k] <==> Goes(cfg, e, g[..k]))
  }

  /** The loop has come to entry |g| with the marks g. */
  predicate Reached(cfg: Config, u: World, g: seq<bool>, w: World) {
    && Marks(cfg, u.eng, g) && Clear(cfg, u.eng, g)
    && |g| <= cfg.lookups && Going(g) <= cfg.perCycle
    && w.hist.issued == u.hist.issued + Gone(u.eng.pending, g)
    && forall op :: w.eng.counts.Get(op) == u.eng.counts.Get(op) + GoingOf(u.eng.pending, g, op)
  }

  lemma Prefixes(g: seq<bool>, b: bool)
    ensures forall k :: 0 <= k <= |g| ==> (g + [b])[..k] == g[..k]
    ensures (g + [b])[..|g|] == g
  {
  }

  lemma MarkMore(cfg: Config, e: Engine, g: seq<bool>, b: bool)
    requires Marks(cfg, e, g) && |g| < |e.pending| && (b <==> Goes(cfg, e, g))
    ensures Marks(cfg, e, g + [b])
    ensures Clear(cfg, e, g + [b]) <==> Clear(cfg, e, g) && !Stops(cfg, e, g)
  {
    hide Goes, Stops;
    Prefixes(g, b);
    assert g[..|g|] == g;
    var h := g + [b];
    if Clear(cfg, e, h) {
      assert !Stops(cfg, e, h[..|g|]);
      assert forall k :: 0 <= k < |g| ==> !Stops(cfg, e, h[..k]);
    }
  }

  lemma CountMore(q: seq<Req>, g: seq<bool>, b: bool)
    requires |g| < |q|
    ensures Going(g + [b]) == Going(g) + One(b)
    ensures forall op :: GoingOf(q, g + [b], op) == GoingOf(q, g, op) + One(b && q[|g|].op == op)
    ensures Gone(q, g + [b]) == Gone(q, g) + if b then [q[|g|].id] else []
  {
    Prefixes(g, b);
  }

  /** The loop looks at nothing after the marked entries. */
  predicate Ended(cfg: Config, e: Engine, g: seq<bool>) {
    || |g| >= cfg.lookups || Going(g) >= cfg.perCycle || !Clear(cfg, e, g)
    || (|g| < |e.pending| && Stops(cfg, e, g))
  }

  lemma EndedStays(cfg: Config, e: Engine, g: seq<bool>)
    requires |g| < |e.pending| && Ended(cfg, e, g) && Marks(cfg, e, g)
    ensures !Goes(cfg, e, g) && Marks(cfg, e, g + [false]) && Ended(cfg, e, g + [false])
  {
    hide Marks, Clear;
    MarkMore(cfg, e, g, false);
    CountMore(e.pending, g, false);
  }

  /** Once the loop has ended, nothing more goes. */
  lemma {:induction false} RestStays(cfg: Config, e: Engine, g: seq<bool>) returns (h: seq<bool>)
    requires Marks(cfg, e, g) && (|g| == |e.pending| || Ended(cfg, e, g))
    ensures |h| == |e.pending| && Marks(cfg, e, h) && Gone(e.pending, h) == Gone(e.pending, g)
    decreases |e.pending| - |g|
  {
    WithinQueue(cfg, e, g);
    hide Marks, Ended, Gone;
    if |g| == |e.pending| {
      h := g;
    } else {
      EndedStays(cfg, e, g);
      CountMore(e.pending, g, false);
      h := RestStays(cfg, e, g + [false]);
    }
  }

  lemma WithinQueue(cfg: Config, e: Engine, g: seq<bool>)
    requires Marks(cfg, e, g)
    ensures |g| <= |e.pending|
  {
  }

  /** One turn of a loop that goes on. */
  lemma TurnMarks(cfg: Config, u: World, g: seq<bool>, w: World, b: bool, v: World)
    requires Reached(cfg, u, g, w) && |g| < |u.eng.pending|
    requires |g| < cfg.lookups && Going(g) < cfg.perCycle && !Stops(cfg, u.eng, g)
    requires u.eng.pending[|g|].op != REQ_FENCE && (b <==> Goes(cfg, u.eng, g))
    requires v == if b then Issue(w, u.eng.pending[|g|]) else w
    ensures Reached(cfg, u, g + [b], v) && Going(g + [b]) == Going(g) + One(b)
  {
    hide Marks, Clear, Stops, Goes, Free, Going, GoingOf, Gone, Issue;
    ReachedBounds(cfg, u, g, w);
    MarkMore(cfg, u.eng, g, b);
    CountMore(u.eng.pending, g, b);
    MarkedCounts(u, g, w, b);
    MarkedIssue(u, g, w, b);
  }

  lemma TurnGoes(cfg: Config, u: World, g: seq<bool>, w: World)
    requires Reached(cfg, u, g, w) && |g| < |u.eng.pending|
    requires |g| < cfg.lookups && Going(g) < cfg.perCycle && !Stops(cfg, u.eng, g)
    ensures var r := u.eng.pending[|g|];
            && r.op != REQ_FENCE && (w.eng.counts.Get(r.op) < cfg.Max(r.op) || r.op == CUSTOM)
            && (Goes(cfg, u.eng, g) <==> w.eng.counts.Get(r.op) < cfg.Max(r.op) && r.deps == [])
  {
    hide Marks, Clear, Going, GoingOf, Gone;
    var r := u.eng.pending[|g|];
    assert Free(cfg, u.eng, g) <==> w.eng.counts.Get(r.op) < cfg.Max(r.op);
  }

  lemma MarkedCounts(u: World, g: seq<bool>, w: World, b: bool)
    requires |g| < |u.eng.pending| && (b ==> u.eng.pending[|g|].op != REQ_FENCE)
    requires forall op :: w.eng.counts.Get(op) == u.eng.counts.Get(op) + GoingOf(u.eng.pending, g, op)
    ensures var v := if b then Issue(w, u.eng.pending[|g|]) else w;
            forall op :: v.eng.counts.Get(op) == u.eng.counts.Get(op) + GoingOf(u.eng.pending, g + [b], op)
  {
    hide GoingOf;
    CountMore(u.eng.pending, g, b);
    var v := if b then Issue(w, u.eng.pending[|g|]) else w;
    IssuedCounts(u, g, w, b);
    forall op: Kind
      ensures v.eng.counts.Get(op) == u.eng.counts.Get(op) + GoingOf(u.eng.pending, g + [b], op)
    {
      assert w.eng.counts.Get(op) == u.eng.counts.Get(op) + GoingOf(u.eng.pending, g, op);
    }
  }

  lemma MarkedIssue(u: World, g: seq<bool>, w: World, b: bool)
    requires |g| < |u.eng.pending| && w.hist.issued == u.hist.issued + Gone(u.eng.pending, g)
    ensures var r := u.eng.pending[|g|];
            (if b then Issue(w, r) else w).hist.issued == u.hist.issued + Gone(u.eng.pending, g + [b])
  {
    CountMore(u.eng.pending, g, b);
    hide Gone;
  }

  lemma LoopTurns(cfg: Config, q: seq<Req>, i: nat, n: nat, w: World)
    requires i < |q| && n != cfg.perCycle && i != cfg.lookups && q[i].op != REQ_FENCE
    requires w.eng.counts.Get(q[i].op) < cfg.Max(q[i].op) || q[i].op == CUSTOM
    ensures IssueFrom(cfg, q, i, n, w) ==
      if w.eng.counts.Get(q[i].op) < cfg.Max(q[i].op) && q[i].deps == []
      then IssueFrom(cfg, q, i + 1, n + 1, Issue(w, q[i])) else IssueFrom(cfg, q, i + 1, n, w)
  {
  }

  /** The loop issues what the marks say. */
  lemma {:induction false} LoopMarks(cfg: Config, u: World, g: seq<bool>, w: World) returns (h: seq<bool>)
    requires Reached(cfg, u, g, w)
    ensures |h| == |u.eng.pending| && Marks(cfg, u.eng, h)
    ensures IssueFrom(cfg, u.eng.pending, |g|, Going(g), w).hist.issued == u.hist.issued + Gone(u.eng.pending, h)
    decreases |u.eng.pending| - |g|
  {
    ReachedBounds(cfg, u, g, w);
    hide Marks, Clear, Stops, Going, Gone, Reached, IssueFrom, Issue;
    var q, i := u.eng.pending, |g|;
    if i == |q| || Going(g) == cfg.perCycle || i == cfg.lookups || Stops(cfg, u.eng, g) {
      LoopStops(cfg, u, g, w);
      h := RestStays(cfg, u.eng, g);
    } else {
      TurnGoes(cfg, u, g, w);
      LoopTurns(cfg, q, i, Going(g), w);
      var b := w.eng.counts.Get(q[i].op) < cfg.Max(q[i].op) && q[i].deps == [];
      var v := if b then Issue(w, q[i]) else w;
      TurnMarks(cfg, u, g, w, b, v);
      h := LoopMarks(cfg, u, g + [b], v);
    }
  }

  lemma ReachedBounds(cfg: Config, u: World, g: seq<bool>, w: World)
    requires Reached(cfg, u, g, w)
    ensures Marks(cfg, u.eng, g) && |g| <= |u.eng.pending| && |g| <= cfg.lookups && Going(g) <= cfg.perCycle
  {
  }

  lemma LoopStops(cfg: Config, u: World, g: seq<bool>, w: World)
    requires Reached(cfg, u, g, w)
    requires || |g| == |u.eng.pending| || Going(g) == cfg.perCycle || |g| == cfg.lookups
             || (|g| < |u.eng.pending| && Stops(cfg, u.eng, g))
    ensures IssueFrom(cfg, u.eng.pending, |g|, Going(g), w).hist.issued == u.hist.issued + Gone(u.eng.pending, g)
    ensures |g| == |u.eng.pending| || Ended(cfg, u.eng, g)
  {
    hide Marks, Clear, Going, Gone;
  }

  lemma IssuedCounts(u: World, g: seq<bool>, w: World, b: bool)
    requires |g| < |u.eng.pending| && (b ==> u.eng.pending[|g|].op != REQ_FENCE)
    ensures var r := u.eng.pending[|g|];
            var v := if b then Issue(w, r) else w;
            forall op :: v.eng.counts.Get(op) == w.eng.counts.Get(op) + One(b && r.op == op)
  {
  }

  /** Exactly what a cycle issues: there is one marking of the filled queue in which each entry
      goes just if the entries before it let it, and the entries marked are issued, in order. */
  lemma CycleIssues(cfg: Config, w: World, made: seq<Made>) returns (g: seq<bool>)
    ensures var u := Filled(cfg, w, made);
            && |g| == |u.eng.pending| && Marks(cfg, u.eng, g)
            && Cycle(cfg, w, made).hist.issued == w.hist.issued + Gone(u.eng.pending, g)
  {
    var u := Filled(cfg, w, made);
    PushAllQuiet(w, made);
    assert w.hist.issued + [] == w.hist.issued;
    g := LoopMarks(cfg, u, [], u);
  }

  /** And only one. */
  lemma {:induction false} MarksUnique(cfg: Config, e: Engine, g: seq<bool>, h: seq<bool>)
    requires Marks(cfg, e, g) && Marks(cfg, e, h) && |g| == |h|
    ensures g == h
    decreases |g|
  {
    if g != [] {
      var n := |g| - 1;
      hide Goes;
      assert forall k :: 0 <= k < n ==> g[..n][..k] == g[..k] && h[..n][..k] == h[..k];
      MarksUnique(cfg, e, g[..n], h[..n]);
      assert g[n] <==> h[n];
      assert g == g[..n] + [g[n]] && h == h[..n] + [h[n]];
    }
  }

  // ---- answers

  /** An answer to an unknown request is fatal; any other takes the request out of flight and
      frees its slot, and every queued request loses one occurrence of it among what it waits
      for, and nothing else. */
  lemma AnswerFrees(cfg: Config, w: World, m: nat)
    requires WorldInv(cfg, w)
    ensures Respond(w, m).Some? <==> m in w.eng.inFlight
    ensures m in w.eng.inFlight ==>
      var e, f, v := w.eng, w.eng.inFlight[m], Respond(w, m).value;
      && v.eng.inFlight == e.inFlight - {m} && v.hist.completed == w.hist.completed + {f.orig}
      && (forall op :: v.eng.counts.Get(op) + One(op == f.op) == e.counts.Get(op))
      && |v.eng.pending| == |e.pending|
      && forall i :: 0 <= i < |e.pending| ==>
           && v.eng.pending[i].id == e.pending[i].id && v.eng.pending[i].op == e.pending[i].op
           && multiset(v.eng.pending[i].deps) == multiset(e.pending[i].deps) - multiset{f.orig}
  {
    assert FlightOk(w.eng) && CountsOk(cfg, w.eng);
    hide WorldInv, FlightOk, CountsOk, Notify, Satisfy;
    if m in w.eng.inFlight {
      RespondCounts(cfg, w.eng, m);
      var o := w.eng.inFlight[m].orig;
      NotifyAt(w.eng.pending, o);
      forall i | 0 <= i < |w.eng.pending|
        ensures multiset(Satisfy(w.eng.pending[i].deps, o)) == multiset(w.eng.pending[i].deps) - multiset{o}
      {
        SatisfyCounts(w.eng.pending[i].deps, o);
      }
    }
  }
}
