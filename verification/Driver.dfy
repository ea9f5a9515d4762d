/** The host driver (init, run, finish) against the device: any list of calls, any
    interleaving of host accesses, clocks, answers and other traffic. */
module Driver {
  import opened PimDef
  import opened Bytes
  import opened Transfer
  import opened Decoder
  import opened DmaSpec
  import opened DmaProof
  import opened DmaRun

  /** One init, run, finish sequence. */
  datatype Invocation = Invocation(fn: Fn, params: Params) {
    function Plan(): Plan {
      JobOf(fn, params).plan
    }
  }

  /** pos counts the accesses made for the current call: ten writes, then polls. */
  datatype Host = Host(calls: seq<Invocation>, finished: nat, pos: nat)

  const FIRST_POLL: nat := 10

  datatype World = World(pim: Pim, host: Host)

  datatype Turn = HostTurn | Env(event: Event)

  function SlotAddr(fn: Fn): nat {
    FUNC_BASE + 8 * SlotIndex(fn)
  }

  /** The word a call's pos-th write carries: INIT, the eight parameters, RUN. */
  function Packet(c: Invocation, pos: nat): word
    requires pos < FIRST_POLL
  {
    if pos == 0 then INIT else if pos <= 8 then c.params[pos - 1] else RUN
  }

  function Access(c: Invocation, pos: nat): Event {
    if pos < FIRST_POLL then Put(SlotAddr(c.fn), ToBytes(Packet(c, pos), 8)) else Get(SlotAddr(c.fn), 8)
  }

  /** A poll: asserts on the first read that the slot is in use, and stops at DONE. */
  function Poll(h: Host, d: seq<byte>): Option<Host> {
    if |d| != 8 || (h.pos == FIRST_POLL && WordOf(d) == 0) then None
    else if WordOf(d) == 4 then Some(Host(h.calls, h.finished + 1, 0))
    else Some(h.(pos := FIRST_POLL + 1))
  }

  function TurnEvent(w: World, t: Turn): Option<Event> {
    match t
    case Env(e) => Some(e)
    case HostTurn =>
      if w.host.finished >= |w.host.calls| then None
      else Some(Access(w.host.calls[w.host.finished], w.host.pos))
  }

  function Take(w: World, t: Turn): Option<World> {
    var e := TurnEvent(w, t);
    if e.None? then Some(w) else
    var q :- Step(w.pim, e.value);
    if t.Env? then Some(World(q, w.host))
    else if e.value.Put? then Some(World(q, w.host.(pos := w.host.pos + 1)))
    else
      var d :- HostRead(w.pim, SlotAddr(w.host.calls[w.host.finished].fn), 8);
      var h :- Poll(w.host, d);
      Some(World(q, h))
  }

  function TakeAll(w: World, ts: seq<Turn>): Option<World>
    decreases |ts|
  {
    if ts == [] then Some(w) else
    var v :- Take(w, ts[0]);
    TakeAll(v, ts[1..])
  }

  function TurnOps(w: World, t: Turn): seq<Op> {
    var e := TurnEvent(w, t);
    if e.None? then [] else OpsOf(w.pim, e.value)
  }

  function WorldLog(w: World, ts: seq<Turn>): seq<Op>
    decreases |ts|
  {
    if ts == [] then []
    else TurnOps(w, ts[0]) + if Take(w, ts[0]).Some? then WorldLog(Take(w, ts[0]).value, ts[1..]) else []
  }

  /** The environment never writes the function page; otherwise it is as free as in DmaRun. */
  predicate LegalTurn(w: World, t: Turn) {
    t.Env? ==> Legal(w.pim, t.event) && (t.event.Put? ==> Decode(t.event.addr) != FUNC)
  }

  predicate LegalTurns(w: World, ts: seq<Turn>)
    decreases |ts|
  {
    ts == [] || (LegalTurn(w, ts[0]) && (Take(w, ts[0]).Some? ==> LegalTurns(Take(w, ts[0]).value, ts[1..])))
  }

  // ---- the protocol invariant

  predicate Unused(s: Slot) {
    s.fstate == INVALID || s.fstate == DONE
  }

  /** How far the slot has followed the driver. */
  predicate InStep(s: Slot, c: Invocation, pos: nat) {
    if pos == 0 then Unused(s)
    else if pos <= 8 then s.fstate == INITIALIZING && s.counter == pos - 1 && s.params[..pos - 1] == c.params[..pos - 1]
    else if pos == 9 then s.fstate == READY && s.params == c.params
    else pos <= FIRST_POLL + 1 && (s.fstate == RUNNING || s.fstate == DONE) && s.params == c.params
  }

  predicate CallsLegal(m: Mem, cs: seq<Invocation>) {
    forall c :: c in cs ==> LegalCall(m, c.fn, c.params)
  }

  predicate WorldInv(w: World) {
    && Inv(w.pim)
    && CallsLegal(w.pim.core.mem, w.host.calls)
    && w.host.finished <= |w.host.calls|
    && if w.host.finished == |w.host.calls| then
         w.host.pos == 0 && Unused(w.pim.f1) && Unused(w.pim.u5)
       else
         var c := w.host.calls[w.host.finished];
         InStep(w.pim.Slot(c.fn), c, w.host.pos) && Unused(w.pim.Slot(Other(c.fn)))
  }

  /** Calls whose RUN has been written. */
  function Begun(h: Host): nat {
    h.finished + if h.pos >= FIRST_POLL then 1 else 0
  }

  function PlansOf(cs: seq<Invocation>): seq<Plan> {
    if cs == [] then [] else [cs[0].Plan()] + PlansOf(cs[1..])
  }

  function CallsIn(ops: seq<Op>): seq<Plan> {
    if ops == [] then []
    else (if ops[0].Call? then [ops[0].plan] else []) + CallsIn(ops[1..])
  }

  lemma SlotAddrDecodes(fn: Fn)
    ensures Decode(SlotAddr(fn)) == FUNC && SlotAt(SlotAddr(fn), 8) == Some(fn)
  {
  }

  // ---- what each side does to the slots

  /** Each driver write is the one the slot waits for, and only the tenth starts it. */
  lemma SlotFollows(s: Slot, c: Invocation, pos: nat)
    requires pos < FIRST_POLL && InStep(s, c, pos)
    ensures WriteFsm(s, Packet(c, pos)).Some?
    ensures var (t, started) := WriteFsm(s, Packet(c, pos)).value;
            InStep(t, c, pos + 1) && started == (pos == 9) && (started ==> t.fstate == RUNNING)
    ensures s.fstate != RUNNING
  {
    if 1 <= pos <= 8 {
      var t := WriteFsm(s, Packet(c, pos)).value.0;
      assert t.params[..pos] == s.params[..pos - 1] + [c.params[pos - 1]];
      assert c.params[..pos] == c.params[..pos - 1] + [c.params[pos - 1]];
      assert pos == 8 ==> t.params[..8] == t.params && c.params[..8] == c.params;
    }
  }

  predicate Advanced(s: Slot, t: Slot) {
    t == s || (s.fstate == RUNNING && t == s.(fstate := DONE, counter := 0))
  }

  lemma EnvAdvancesSlots(p: Pim, e: Event, fn: Fn)
    requires Step(p, e).Some? && (e.Put? ==> Decode(e.addr) != FUNC)
    ensures Advanced(p.Slot(fn), Step(p, e).value.Slot(fn))
  {
    hide ClockFsm, Complete, Store, HostRead;
  }

  lemma StepKeepsSize(p: Pim, e: Event)
    requires Inv(p) && Legal(p, e)
    ensures Step(p, e).Some? && Inv(Step(p, e).value) && SameSize(p.core.mem, Step(p, e).value.core.mem)
  {
    hide Step, Engaged, Target, Legal, OpsOf;
    StepSimulated(p, e);
    FinishSize(p);
    FinishSize(Step(p, e).value);
  }

  lemma FinishSize(p: Pim)
    requires Inv(p)
    ensures SameSize(Finish(p), p.core.mem)
  {
    hide Engaged, Target;
    if Running(p, F1) {
      TargetSize(JobIn(p, F1), p.copy, p.core);
    } else if Running(p, U5) {
      TargetSize(JobIn(p, U5), p.mul, p.core);
    }
  }

  lemma LegalBySize(m: Mem, n: Mem, cs: seq<Invocation>)
    requires SameSize(m, n) && CallsLegal(m, cs)
    ensures CallsLegal(n, cs)
  {
  }

  // ---- turns

  /** A word written to a slot's address reaches that slot. */
  lemma WriteReaches(p: Pim, fn: Fn, d: word)
    ensures var e := Put(SlotAddr(fn), ToBytes(d, 8));
            && Step(p, e) == SlotWrite(p, fn, d) && Legal(p, e) == LegalCommand(p, fn, d)
            && OpsOf(p, e) == if p.Slot(fn).fstate == READY then [Call(JobIn(p, fn).plan)] else []
  {
    hide ToBytes, WriteFsm, DmaSpec.Start, LegalCommand;
    SlotAddrDecodes(fn);
    WordCodec(d, ToBytes(d, 8));
  }

  lemma HostWriteTurn(w: World)
    requires WorldInv(w) && w.host.finished < |w.host.calls| && w.host.pos < FIRST_POLL
    ensures Legal(w.pim, TurnEvent(w, HostTurn).value)
    ensures Take(w, HostTurn).Some? && WorldInv(Take(w, HostTurn).value)
    ensures var c := w.host.calls[w.host.finished];
            TurnOps(w, HostTurn) == if w.host.pos == 9 then [Call(c.Plan())] else []
    ensures Take(w, HostTurn).value.host == w.host.(pos := w.host.pos + 1)
  {
    hide Inv, LegalCall, Start, Step, Legal, OpsOf, HostRead, ToBytes;
    var c, pos, p := w.host.calls[w.host.finished], w.host.pos, w.pim;
    var d := Packet(c, pos);
    WriteReaches(p, c.fn, d);
    SlotFollows(p.Slot(c.fn), c, pos);
    assert LegalCommand(p, c.fn, d);
    StepKeepsSize(p, Access(c, pos));
    LegalBySize(p.core.mem, Take(w, HostTurn).value.pim.core.mem, w.host.calls);
  }

  /** A poll changes nothing but the driver, and moves it on to the next call exactly when it
      finds DONE. */
  lemma HostPollTurn(w: World)
    requires WorldInv(w) && w.host.finished < |w.host.calls| && w.host.pos >= FIRST_POLL
    ensures Legal(w.pim, TurnEvent(w, HostTurn).value)
    ensures Take(w, HostTurn).Some? && WorldInv(Take(w, HostTurn).value)
    ensures TurnOps(w, HostTurn) == []
    ensures Begun(Take(w, HostTurn).value.host) == Begun(w.host)
    ensures var h, c := w.host, w.host.calls[w.host.finished];
            Take(w, HostTurn).value ==
              World(w.pim, if w.pim.Slot(c.fn).fstate == DONE then Host(h.calls, h.finished + 1, 0)
                           else h.(pos := FIRST_POLL + 1))
  {
    hide Inv, LegalCall;
    var c, p := w.host.calls[w.host.finished], w.pim;
    SlotAddrDecodes(c.fn);
    WordCodec(ReadFsm(p.Slot(c.fn)), ToBytes(ReadFsm(p.Slot(c.fn)), 8));
  }

  lemma EnvTurn(w: World, e: Event)
    requires WorldInv(w) && LegalTurn(w, Env(e))
    ensures Take(w, Env(e)).Some? && WorldInv(Take(w, Env(e)).value)
    ensures Take(w, Env(e)).value.host == w.host && CallsIn(TurnOps(w, Env(e))) == []
    ensures forall fn :: Advanced(w.pim.Slot(fn), Take(w, Env(e)).value.pim.Slot(fn))
  {
    hide Inv, LegalCall, Step, Legal;
    StepKeepsSize(w.pim, e);
    EnvAdvancesSlots(w.pim, e, F1);
    EnvAdvancesSlots(w.pim, e, U5);
    LegalBySize(w.pim.core.mem, Step(w.pim, e).value.core.mem, w.host.calls);
  }

  /** From w to v the memory performed ops, and the calls among them are the driver's next
      ones, in its order. */
  predicate Linked(w: World, v: World, ops: seq<Op>) {
    && WorldInv(w) && WorldInv(v) && v.host.calls == w.host.calls
    && Begun(w.host) <= Begun(v.host) <= |w.host.calls|
    && Finish(v.pim) == Replay(Finish(w.pim), ops)
    && CallsIn(ops) == PlansOf(w.host.calls[Begun(w.host)..Begun(v.host)])
  }

  lemma NothingBegun(w: World, v: World, ops: seq<Op>)
    requires WorldInv(w) && WorldInv(v) && v.host.calls == w.host.calls && Begun(v.host) == Begun(w.host)
    requires Finish(v.pim) == Replay(Finish(w.pim), ops) && CallsIn(ops) == []
    ensures Linked(w, v, ops)
  {
    hide Inv, Finish, CallsLegal, InStep;
    assert w.host.calls[Begun(w.host)..Begun(v.host)] == [];
  }

  lemma OneCall(c: Invocation)
    ensures CallsIn([Call(c.Plan())]) == PlansOf([c]) == [c.Plan()]
  {
    assert CallsIn([]) == [] && PlansOf([]) == [];
    assert [c][1..] == [] && [Call(c.Plan())][1..] == [];
  }

  lemma NextBegun(w: World, v: World, c: Invocation)
    requires WorldInv(w) && WorldInv(v) && v.host.calls == w.host.calls
    requires Begun(v.host) == Begun(w.host) + 1 <= |w.host.calls| && c == w.host.calls[Begun(w.host)]
    requires Finish(v.pim) == Replay(Finish(w.pim), [Call(c.Plan())])
    ensures Linked(w, v, [Call(c.Plan())])
  {
    hide Inv, Finish, CallsLegal, InStep;
    assert w.host.calls[Begun(w.host)..Begun(v.host)] == [c];
    OneCall(c);
  }

  lemma TurnSimulated(w: World, t: Turn)
    requires WorldInv(w) && LegalTurn(w, t)
    ensures Take(w, t).Some? && Linked(w, Take(w, t).value, TurnOps(w, t))
  {
    hide Inv, Finish, Step, Legal, OpsOf, CallsLegal, InStep, HostRead, Linked;
    if t.Env? {
      EnvTurn(w, t.event);
      StepSimulated(w.pim, t.event);
      NothingBegun(w, Take(w, t).value, TurnOps(w, t));
    } else if w.host.finished == |w.host.calls| {
      NothingBegun(w, w, []);
    } else if w.host.pos < FIRST_POLL {
      HostWriteSimulated(w);
    } else {
      HostPollTurn(w);
      StepSimulated(w.pim, TurnEvent(w, t).value);
      NothingBegun(w, Take(w, t).value, TurnOps(w, t));
    }
  }

  lemma HostWriteSimulated(w: World)
    requires WorldInv(w) && w.host.finished < |w.host.calls| && w.host.pos < FIRST_POLL
    ensures Take(w, HostTurn).Some? && Linked(w, Take(w, HostTurn).value, TurnOps(w, HostTurn))
  {
    hide Inv, Finish, Step, Legal, CallsLegal, InStep, HostRead, Linked;
    HostWriteTurn(w);
    StepSimulated(w.pim, TurnEvent(w, HostTurn).value);
    var v := Take(w, HostTurn).value;
    if w.host.pos == 9 {
      NextBegun(w, v, w.host.calls[w.host.finished]);
    } else {
      NothingBegun(w, v, TurnOps(w, HostTurn));
    }
  }

  lemma {:induction false} CallsInConcat(a: seq<Op>, b: seq<Op>)
    ensures CallsIn(a + b) == CallsIn(a) + CallsIn(b)
  {
    if a == [] {
      assert a + b == b;
    } else {
      assert (a + b)[0] == a[0] && (a + b)[1..] == a[1..] + b;
      CallsInConcat(a[1..], b);
    }
  }

  lemma {:induction false} PlansOfConcat(a: seq<Invocation>, b: seq<Invocation>)
    ensures PlansOf(a + b) == PlansOf(a) + PlansOf(b)
  {
    if a == [] {
      assert a + b == b;
    } else {
      assert (a + b)[0] == a[0] && (a + b)[1..] == a[1..] + b;
      PlansOfConcat(a[1..], b);
    }
  }

  lemma LinkedTransitive(w: World, v: World, u: World, a: seq<Op>, b: seq<Op>)
    requires Linked(w, v, a) && Linked(v, u, b)
    ensures Linked(w, u, a + b)
  {
    hide Inv, Finish, CallsLegal, InStep;
    ReplayConcat(Finish(w.pim), a, b);
    CallsInRange(w.host.calls, a, b, Begun(w.host), Begun(v.host), Begun(u.host));
  }

  lemma CallsInRange(cs: seq<Invocation>, a: seq<Op>, b: seq<Op>, i: nat, j: nat, k: nat)
    requires i <= j <= k <= |cs| && CallsIn(a) == PlansOf(cs[i..j]) && CallsIn(b) == PlansOf(cs[j..k])
    ensures CallsIn(a + b) == PlansOf(cs[i..k])
  {
    CallsInConcat(a, b);
    PlansOfConcat(cs[i..j], cs[j..k]);
    assert cs[i..j] + cs[j..k] == cs[i..k];
  }

  /** The end-to-end theorem: nothing fails; memory is always the logged operations applied
      to the starting memory, and the calls in the log are the driver's calls, each once
      and in order. */
  lemma {:induction false} TurnsSimulated(w: World, ts: seq<Turn>)
    requires WorldInv(w) && LegalTurns(w, ts)
    ensures TakeAll(w, ts).Some? && Linked(w, TakeAll(w, ts).value, WorldLog(w, ts))
    decreases |ts|
  {
    hide WorldInv, Finish, Take, TurnOps, LegalTurn, Begun;
    if ts == [] {
      LinkedRefl(w);
    } else {
      TurnSimulated(w, ts[0]);
      var v := Take(w, ts[0]).value;
      TurnsSimulated(v, ts[1..]);
      LinkedTransitive(w, v, TakeAll(v, ts[1..]).value, TurnOps(w, ts[0]), WorldLog(v, ts[1..]));
    }
  }

  lemma LinkedRefl(w: World)
    requires WorldInv(w)
    ensures Linked(w, w, [])
  {
    hide Inv, Finish, CallsLegal, InStep;
    assert w.host.calls[Begun(w.host)..Begun(w.host)] == [];
  }

  // ---- completed call sequences

  /** The pure meaning of a list of calls: each moves its whole range at once. */
  function Fold(m: Mem, cs: seq<Invocation>): (r: Mem)
    requires CallsLegal(m, cs)
    ensures SameSize(m, r)
    decreases |cs|
  {
    if cs == [] then m
    else Fold(Whole(m, cs[0].Plan()), cs[1..])
  }

  /** The traffic in a log. */
  function PutsIn(ops: seq<Op>): seq<Op> {
    if ops == [] then [] else (if ops[0].PutBytes? then [ops[0]] else []) + PutsIn(ops[1..])
  }

  predicate ClearOfAll(l: Loc, n: nat, cs: seq<Invocation>) {
    forall c :: c in cs ==> Apart(l, n, c.Plan())
  }

  predicate LogClear(ops: seq<Op>, cs: seq<Invocation>) {
    forall op :: op in ops && op.PutBytes? ==> ClearOfAll(op.loc, |op.data|, cs)
  }

  predicate AllHarmless(cs: seq<Invocation>) {
    forall c :: c in cs ==> Harmless(c.Plan())
  }

  lemma WholeCommutes(m: Mem, p: Plan, l: Loc, d: seq<byte>)
    requires Fits(m, p) && InBank(m, l, |d|) && Apart(l, |d|, p)
    ensures Whole(Store(m, l, d), p) == Store(Whole(m, p), l, d)
  {
    hide Splice;
    LoadStoreApart(m, l, d, p.src, p.Bytes());
    StoresCommute(m, l, d, p.dst, Apply(p.xform, Load(m, p.src, p.Bytes())));
  }

  lemma {:induction false} FoldCommutes(m: Mem, cs: seq<Invocation>, l: Loc, d: seq<byte>)
    requires CallsLegal(m, cs) && InBank(m, l, |d|) && ClearOfAll(l, |d|, cs)
    ensures CallsLegal(Store(m, l, d), cs)
    ensures Fold(Store(m, l, d), cs) == Store(Fold(m, cs), l, d)
    decreases |cs|
  {
    hide Store, Whole, LegalCall;
    LegalBySize(m, Store(m, l, d), cs);
    if cs != [] {
      FitsWhenLegal(m, cs[0]);
      WholeCommutes(m, cs[0].Plan(), l, d);
      LegalBySize(m, Whole(m, cs[0].Plan()), cs);
      FoldCommutes(Whole(m, cs[0].Plan()), cs[1..], l, d);
    }
  }

  lemma FitsWhenLegal(m: Mem, c: Invocation)
    requires LegalCall(m, c.fn, c.params)
    ensures Fits(m, c.Plan())
  {
  }

  /** Calls and clear traffic separate: all the calls first, then all the traffic. */
  lemma {:induction false} ReplaySeparates(m: Mem, cs: seq<Invocation>, ops: seq<Op>)
    requires CallsLegal(m, cs) && AllHarmless(cs) && CallsIn(ops) == PlansOf(cs) && LogClear(ops, cs)
    ensures Replay(m, ops) == Replay(Fold(m, cs), PutsIn(ops))
    decreases |ops|
  {
    hide Chunked, Whole, LegalCall, Store, Harmless, Apart;
    if ops != [] {
      if ops[0].Call? {
        var q := cs[0].Plan();
        assert ops[0].plan == PlansOf(cs)[0] == q;
        assert CallsIn(ops[1..]) == PlansOf(cs)[1..] == PlansOf(cs[1..]);
        FitsWhenLegal(m, cs[0]);
        HarmlessChunkedIsWhole(m, q);
        assert PutsIn(ops) == PutsIn(ops[1..]) && Do(m, ops[0]) == Whole(m, q);
        LegalBySize(m, Whole(m, q), cs);
        ReplaySeparates(Whole(m, q), cs[1..], ops[1..]);
      } else {
        var m1 := Do(m, ops[0]);
        LegalBySize(m, m1, cs);
        ReplaySeparates(m1, cs, ops[1..]);
        PutPastFold(m, cs, ops[0]);
      }
    }
  }

  lemma PutPastFold(m: Mem, cs: seq<Invocation>, op: Op)
    requires CallsLegal(m, cs) && op.PutBytes? && ClearOfAll(op.loc, |op.data|, cs)
    ensures CallsLegal(Do(m, op), cs) && Fold(Do(m, op), cs) == Do(Fold(m, cs), op)
  {
    LegalBySize(m, Do(m, op), cs);
    if InBank(m, op.loc, |op.data|) {
      FoldCommutes(m, cs, op.loc, op.data);
    }
  }

  /** The environment's writes avoid every range that any of the calls uses. */
  predicate TrafficClear(ts: seq<Turn>, cs: seq<Invocation>) {
    forall t :: t in ts && t.Env? && t.event.Put? ==>
      ClearOfAll(if IsIO(t.event.addr) then SramLoc(t.event.addr) else Loc(Dram, t.event.addr), |t.event.data|, cs)
  }

  lemma {:induction false} TrafficLogClear(w: World, ts: seq<Turn>)
    requires WorldInv(w) && LegalTurns(w, ts) && TrafficClear(ts, w.host.calls)
    ensures LogClear(WorldLog(w, ts), w.host.calls)
    decreases |ts|
  {
    hide Inv, Finish, Step, Legal, CallsLegal, InStep, HostRead, Poll, ClearOfAll;
    if ts != [] {
      TurnSimulated(w, ts[0]);
      TrafficLogClear(Take(w, ts[0]).value, ts[1..]);
      if ts[0].HostTurn? && w.host.finished < |w.host.calls| {
        if w.host.pos < FIRST_POLL {
          HostWriteTurn(w);
        } else {
          HostPollTurn(w);
        }
      }
    }
  }

  /** Every completed sequence of calls, on both functions, under any delays and any traffic
      outside the ranges used, leaves DRAM and SRAM as the pure copies and multiplications,
      folded in order, leave them; the traffic lands on top, in its own order. */
  lemma CompletedCallsFold(w: World, ts: seq<Turn>)
    requires WorldInv(w) && w.host.finished == w.host.pos == 0 && !Running(w.pim, F1) && !Running(w.pim, U5)
    requires AllHarmless(w.host.calls) && LegalTurns(w, ts) && TrafficClear(ts, w.host.calls)
    requires TakeAll(w, ts).Some? ==> TakeAll(w, ts).value.host.finished == |w.host.calls|
    ensures TakeAll(w, ts).Some?
    ensures TakeAll(w, ts).value.pim.core.mem
         == Replay(Fold(w.pim.core.mem, w.host.calls), PutsIn(WorldLog(w, ts)))
  {
    hide Inv, CallsLegal, AllHarmless, LogClear, LegalTurns, TakeAll, WorldLog, PlansOf, CallsIn, Fold, PutsIn, Replay;
    TurnsSimulated(w, ts);
    TrafficLogClear(w, ts);
    assert w.host.calls[0..|w.host.calls|] == w.host.calls;
    ReplaySeparates(w.pim.core.mem, w.host.calls, WorldLog(w, ts));
  }

  /** A device fresh from its constructor, with a driver that has done nothing, is a start. */
  lemma InitialWorld(p: Pim, calls: seq<Invocation>)
    requires Initial(p) && CallsLegal(p.core.mem, calls)
    ensures WorldInv(World(p, Host(calls, 0, 0))) && !Running(p, F1) && !Running(p, U5)
  {
  }
}
