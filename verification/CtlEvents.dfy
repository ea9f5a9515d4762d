/** What becomes of each kind of event, from its arrival to its answer, in terms of its own
    fields and the bytes of the backing store. */
module CtlEvents {
  import opened PimDef
  import opened Transfer
  import opened Decoder
  import opened Region
  import opened CtlSpec
  import opened CtlProof
  import opened CtlRun

  // ---- from the flat memory to the store

  /** A run that the flat memory can make is legal, if its arrivals are. */
  lemma {:induction false} LegalByFlat(c: Ctl, es: seq<CtlEvent>)
    requires CtlInv(c) && c.region.Valid() && c.region.Extent() <= |c.backing|
    requires forall e :: e in es && e.Arrive? ==> Arrival(c.region, e.event)
    requires RunFlat(Abs(c), es).Some?
    ensures LegalCtlRun(c, es)
    decreases |es|
  {
    hide CtlInv, Abs, CtlStep, FlatStep, SameReactions, Arrival;
    if es != [] {
      assert es[0] in es;
      StepIsLegal(c, es[0]);
      CtlStepSimulated(c, es[0]);
      var s := CtlStep(c, es[0]).value.0;
      InvGivesValid(s);
      LegalByFlat(s, es[1..]);
    }
  }

  lemma StepIsLegal(c: Ctl, e: CtlEvent)
    requires CtlInv(c) && c.region.Valid() && c.region.Extent() <= |c.backing|
    requires e.Arrive? ==> Arrival(c.region, e.event)
    requires FlatStep(Abs(c), e).Some?
    ensures LegalCtl(c, e)
  {
    hide FlatMem, AllHeld;
  }

  /** The store holds byte b for the owned address g. */
  predicate Holds(c: Ctl, g: nat, b: byte)
    requires c.region.Valid()
  {
    c.region.Owns(g) && ToLocal(c.region, g) < |c.backing| && c.backing[ToLocal(c.region, g)] == b
  }

  lemma HoldsIff(c: Ctl, g: nat, b: byte)
    requires CtlInv(c) && c.region.Valid() && c.region.Extent() <= |c.backing|
    ensures Holds(c, g, b) <==> g in Abs(c).mem && Abs(c).mem[g] == b
  {
    hide AllHeld, AbsWaiting, ToLocal;
    if c.region.Owns(g) {
      BelowExtent(c.region, g);
      assert g in FlatMem(c.region, c.backing);
    }
  }

  /** From c to s the bytes d have landed at a, and no other byte has changed. */
  ghost predicate Landed(c: Ctl, s: Ctl, a: nat, d: seq<byte>)
    requires c.region.Valid()
  {
    && s.region == c.region && |s.backing| == |c.backing|
    && (forall i: nat :: i < |d| ==> Holds(s, a + i, d[i]))
    && (forall g: nat, b: byte :: Holds(c, g, b) && !(a <= g < a + |d|) ==> Holds(s, g, b))
  }

  lemma OverlayLands(c: Ctl, s: Ctl, a: nat, d: seq<byte>)
    requires CtlInv(c) && CtlInv(s) && c.region.Valid() && c.region.Extent() <= |c.backing|
    requires s.region == c.region && |s.backing| == |c.backing|
    requires Abs(s).mem == Overlay(Abs(c).mem, a, d) && (d == [] || c.region.OwnsRange(a, |d|))
    ensures Landed(c, s, a, d)
  {
    forall i: nat | i < |d|
      ensures Holds(s, a + i, d[i])
    {
      RangeOwned(c, a, |d|, i);
      hide CtlInv, Abs, Holds;
      HoldsIff(s, a + i, d[i]);
    }
    hide CtlInv, Abs, Holds;
    forall g: nat, b: byte | Holds(c, g, b) && !(a <= g < a + |d|)
      ensures Holds(s, g, b)
    {
      HoldsIff(c, g, b);
      HoldsIff(s, g, b);
    }
  }

  lemma RangeOwned(c: Ctl, a: nat, n: nat, i: nat)
    requires CtlInv(c) && c.region.OwnsRange(a, n) && i < n
    ensures a + i in Abs(c).mem
  {
    hide AllHeld, AbsWaiting;
    ChunkKept(c.region, a, n, i);
    HoldsIff(c, a + i, 0);
    assert a + i in FlatMem(c.region, c.backing);
  }

  lemma {:induction false} RunKeepsSize(c: Ctl, es: seq<CtlEvent>)
    requires c.region.Valid() && RunCtl(c, es).Some?
    ensures |RunCtl(c, es).value.0.backing| == |c.backing|
    decreases |es|
  {
    hide CtlStep;
    if es != [] {
      StepKeepsSize(c, es[0]);
      RunKeepsSize(CtlStep(c, es[0]).value.0, es[1..]);
    }
  }

  lemma StepKeepsSize(c: Ctl, e: CtlEvent)
    requires c.region.Valid() && CtlStep(c, e).Some?
    ensures |CtlStep(c, e).value.0.backing| == |c.backing|
  {
    hide Hold, MakeReply;
  }

  /** A flat run that overlays d at a, and what the controller's run then does. */
  lemma RunLands(c: Ctl, es: seq<CtlEvent>, a: nat, d: seq<byte>, ys: seq<Reaction>)
    requires CtlInv(c) && c.region.Valid() && c.region.Extent() <= |c.backing|
    requires forall e :: e in es && e.Arrive? ==> Arrival(c.region, e.event)
    requires RunFlat(Abs(c), es) == Some((Flat(Overlay(Abs(c).mem, a, d), Abs(c).waiting), ys))
    requires d == [] || c.region.OwnsRange(a, |d|)
    ensures LegalCtlRun(c, es) && RunCtl(c, es).Some? && Landed(c, RunCtl(c, es).value.0, a, d)
    ensures RunCtl(c, es).value.0.outstanding.Keys == Abs(c).waiting.Keys
    ensures SameReactions(c.region, RunCtl(c, es).value.1, ys)
  {
    hide CtlInv, Abs, RunCtl, RunFlat, LegalCtlRun, SameReactions, Landed, Overlay, Arrival;
    LegalByFlat(c, es);
    CtlRefinesFlat(c, es);
    RunKeepsSize(c, es);
    var s := RunCtl(c, es).value.0;
    OverlayLands(c, s, a, d);
    SameKeys(s);
  }

  lemma SameKeys(c: Ctl)
    requires CtlInv(c)
    ensures Abs(c).waiting.Keys == c.outstanding.Keys
  {
    hide FlatMem, AllHeld, Globalised;
  }

  // ---- runs of two and three steps

  lemma FlatTwo(f: Flat, e: MemEvent, putId: nat, id: nat, flags: set<Flag>, d: seq<byte>,
                g: Flat, h: Flat, y: Reaction)
    requires FlatReceive(f, e, putId) == Some(g) && FlatRespond(g, id, flags, d) == Some((h, y))
    ensures RunFlat(f, [Arrive(e, putId), Complete(id, flags, d)]) == Some((h, [y]))
  {
    hide FlatReceive, FlatRespond;
    var es := [Arrive(e, putId), Complete(id, flags, d)];
    assert es[1..] == [Complete(id, flags, d)] && es[1..][1..] == [];
    assert RunFlat(h, []) == Some((h, []));
    assert RunFlat(g, es[1..]) == Some((h, [y] + [])) && [y] + [] == [y];
    assert [] + [y] == [y];
  }

  // ---- the kinds of events

  /** An answer to e: to its side, with its number, command and flags, under its own addresses. */
  predicate Answers(reply: Reply, e: MemEvent, cmd: Cmd, flags: set<Flag>) {
    && (if FromPim in e.flags then reply.ToPim? else reply.ToLink?)
    && reply.event.id == e.id && reply.event.cmd == cmd && reply.event.flags == flags
    && reply.event.addr == e.addr && reply.event.baseAddr == e.baseAddr
  }

  /** A fresh number, and an event that is for the memory. */
  predicate Plain(c: Ctl, e: MemEvent) {
    e.id !in c.outstanding && Mmio !in e.flags && (FromPim in e.flags || !IsIO(e.addr))
  }

  /** A write lands at its address; a write-back at its line's base or, noncacheable, at its
      address; the write is answered, the write-back is not. */
  lemma WriteLands(c: Ctl, e: MemEvent, putId: nat, flags: set<Flag>)
    requires CtlInv(c) && Arrival(c.region, e) && Plain(c, e) && (e.cmd == Write || e.cmd == PutM)
    ensures var es := [Arrive(e, putId), Complete(e.id, flags, [])];
            var a := if e.cmd == PutM && Noncacheable !in e.flags then e.baseAddr else e.addr;
            && LegalCtlRun(c, es) && RunCtl(c, es).Some?
            && var (s, xs) := RunCtl(c, es).value;
               && Landed(c, s, a, e.payload) && s.outstanding.Keys == c.outstanding.Keys
               && |xs| == 1 && xs[0].device == NoCall
               && if e.cmd == PutM || NoResponse in e.flags then xs[0].reply == NoReply
                  else Answers(xs[0].reply, e, WriteResp, flags)
  {
    hide FlatMem, AbsWaiting, AllHeld, Landed, Overlay, Decode, LegalCtlRun, RunCtl, RunFlat;
    SameKeys(c);
    var f := Abs(c);
    var held := if e.cmd == PutM then e.(flags := e.flags + {NoResponse}) else e;
    var g := f.(waiting := f.waiting[e.id := held]);
    assert FlatReceive(f, e, putId) == Some(g);
    var (h, y) := FlatRespond(g, e.id, flags, []).value;
    assert g.waiting - {e.id} == f.waiting;
    FlatTwo(f, e, putId, e.id, flags, [], g, h, y);
    var a := if e.cmd == PutM && Noncacheable !in e.flags then e.baseAddr else e.addr;
    RunLands(c, [Arrive(e, putId), Complete(e.id, flags, [])], a, e.payload, [y]);
  }

  /** A read is answered with the bytes at its address, or if it is cacheable, of its line, and
      changes nothing; one that wants no response gets none. */
  lemma ReadAnswered(c: Ctl, e: MemEvent, putId: nat, flags: set<Flag>)
    requires CtlInv(c) && Arrival(c.region, e) && Plain(c, e) && (e.cmd == GetS || e.cmd == GetX || e.cmd == GetSX)
    ensures var es := [Arrive(e, putId), Complete(e.id, flags, [])];
            var a := if Noncacheable in e.flags then e.addr else e.baseAddr;
            && LegalCtlRun(c, es) && RunCtl(c, es).Some?
            && var (s, xs) := RunCtl(c, es).value;
               && Landed(c, s, a, []) && s.outstanding.Keys == c.outstanding.Keys
               && |xs| == 1 && xs[0].device == NoCall
               && if NoResponse in e.flags then xs[0].reply == NoReply
                  else
                    && Answers(xs[0].reply, e,
                               if Noncacheable in e.flags && e.cmd != GetX then GetSResp else GetXResp, flags)
                    && xs[0].reply.event.size == e.size && Gives(c, a, e.size, xs[0].reply.event.payload)
  {
    var f, a := Abs(c), if Noncacheable in e.flags then e.addr else e.baseAddr;
    ReadCovered(c, a, e.size);
    SameKeys(c);
    hide FlatMem, AbsWaiting, AllHeld, Landed, Overlay, Decode, LegalCtlRun, RunCtl, RunFlat, Slice, Covers, Gives;
    var g := f.(waiting := f.waiting[e.id := e]);
    assert FlatReceive(f, e, putId) == Some(g);
    var (h, y) := FlatRespond(g, e.id, flags, []).value;
    assert g.waiting - {e.id} == f.waiting;
    OverlayNothing(f.mem, a);
    FlatTwo(f, e, putId, e.id, flags, [], g, h, y);
    RunLands(c, [Arrive(e, putId), Complete(e.id, flags, [])], a, [], [y]);
  }

  lemma OverlayNothing(m: map<nat, byte>, a: nat)
    ensures Overlay(m, a, []) == m
  {
  }

  /** d is what the store holds in the n bytes at a. */
  ghost predicate Gives(c: Ctl, a: nat, n: nat, d: seq<byte>)
    requires c.region.Valid()
  {
    |d| == n && forall i: nat :: i < n ==> Holds(c, a + i, d[i])
  }

  /** An owned range inside a chunk, in the flat memory and in the store. */
  lemma ReadCovered(c: Ctl, a: nat, n: nat)
    requires CtlInv(c) && c.region.OwnsRange(a, n)
    ensures Covers(Abs(c).mem, a, n) && Gives(c, a, n, Slice(Abs(c).mem, a, n))
  {
    InvGivesValid(c);
    var m := Abs(c).mem;
    forall g: nat | a <= g < a + n
      ensures g in m
    {
      RangeOwned(c, a, n, g - a);
    }
    hide CtlInv, Abs, Holds;
    forall i: nat | i < n
      ensures Holds(c, a + i, Slice(m, a, n)[i])
    {
      HoldsIff(c, a + i, m[a + i]);
    }
  }

  // ---- flushes

  lemma FlatThree(f: Flat, e: MemEvent, putId: nat, id1: nat, id2: nat, flags1: set<Flag>, flags2: set<Flag>,
                  g: Flat, h: Flat, k: Flat, y1: Reaction, y2: Reaction)
    requires FlatReceive(f, e, putId) == Some(g)
    requires FlatRespond(g, id1, flags1, []) == Some((h, y1)) && FlatRespond(h, id2, flags2, []) == Some((k, y2))
    ensures RunFlat(f, [Arrive(e, putId), Complete(id1, flags1, []), Complete(id2, flags2, [])]) == Some((k, [y1, y2]))
  {
    hide FlatReceive, FlatRespond;
    var es := [Arrive(e, putId), Complete(id1, flags1, []), Complete(id2, flags2, [])];
    assert es[1..] == [Complete(id1, flags1, []), Complete(id2, flags2, [])];
    assert es[1..][1..] == [Complete(id2, flags2, [])] && es[1..][1..][1..] == [];
    assert RunFlat(k, []) == Some((k, []));
    assert RunFlat(h, es[1..][1..]) == Some((k, [y2] + [])) && [y2] + [] == [y2];
    assert RunFlat(g, es[1..]) == Some((k, [y1] + [y2])) && [y1] + [y2] == [y1, y2];
    assert [] + [y1, y2] == [y1, y2];
  }

  predicate Flush(e: MemEvent) {
    e.cmd == FlushLine || e.cmd == FlushLineInv
  }

  lemma FlatFlush(f: Flat, e: MemEvent, putId: nat, flags1: set<Flag>, flags2: set<Flag>)
    requires Flush(e) && e.payload != [] && e.id !in f.waiting && putId !in f.waiting && putId != e.id
    requires Mmio !in e.flags && (FromPim in e.flags || !IsIO(e.addr))
    ensures RunFlat(f, [Arrive(e, putId), Complete(putId, flags1, []), Complete(e.id, flags2, [])])
         == Some((Flat(Overlay(f.mem, e.baseAddr, e.payload), f.waiting),
                  [Reaction(NoCall, NoReply),
                   Reaction(NoCall, MakeReply(e.(cmd := FlushLine), flags2, [], e.addr, e.baseAddr))]))
  {
    hide Overlay, Decode, RunFlat;
    var put := MemEvent(putId, PutM, e.baseAddr, e.baseAddr, true, {NoResponse}, |e.payload|, e.payload);
    var g := f.(waiting := f.waiting[putId := put][e.id := e.(cmd := FlushLine)]);
    FlushHeld(f, e, putId, g);
    var h := Flat(Overlay(f.mem, e.baseAddr, e.payload), f.waiting[e.id := e.(cmd := FlushLine)]);
    assert g.waiting - {putId} == h.waiting;
    assert h.waiting - {e.id} == f.waiting;
    FlatThree(f, e, putId, putId, e.id, flags1, flags2, g, h, h.(waiting := f.waiting), Reaction(NoCall, NoReply),
              Reaction(NoCall, MakeReply(e.(cmd := FlushLine), flags2, [], e.addr, e.baseAddr)));
  }

  lemma FlushReply(e: MemEvent, flags: set<Flag>)
    requires Flush(e)
    ensures var reply := MakeReply(e.(cmd := FlushLine), flags, [], e.addr, e.baseAddr);
            if NoResponse in e.flags then reply == NoReply else Answers(reply, e, FlushLineResp, flags)
  {
  }

  /** A flush that carries data writes it to its line, under the number given for that, and is
      answered under its own; neither waits for the other. */
  lemma FlushLands(c: Ctl, e: MemEvent, putId: nat, flags1: set<Flag>, flags2: set<Flag>)
    requires CtlInv(c) && Arrival(c.region, e) && Plain(c, e) && Flush(e) && e.payload != []
    requires putId !in c.outstanding && putId != e.id
    ensures var es := [Arrive(e, putId), Complete(putId, flags1, []), Complete(e.id, flags2, [])];
            && LegalCtlRun(c, es) && RunCtl(c, es).Some?
            && var (s, xs) := RunCtl(c, es).value;
               && Landed(c, s, e.baseAddr, e.payload) && s.outstanding.Keys == c.outstanding.Keys
               && |xs| == 2 && xs[0] == Reaction(NoCall, NoReply) && xs[1].device == NoCall
               && if NoResponse in e.flags then xs[1].reply == NoReply
                  else Answers(xs[1].reply, e, FlushLineResp, flags2)
  {
    SameKeys(c);
    InvGivesValid(c);
    FlushRange(c, e);
    FlushReply(e, flags2);
    hide CtlInv, Abs, Landed, LegalCtlRun, RunCtl, RunFlat, Arrival, MakeReply, Answers, Decode;
    FlatFlush(Abs(c), e, putId, flags1, flags2);
    RunLands(c, [Arrive(e, putId), Complete(putId, flags1, []), Complete(e.id, flags2, [])], e.baseAddr, e.payload,
             [Reaction(NoCall, NoReply),
              Reaction(NoCall, MakeReply(e.(cmd := FlushLine), flags2, [], e.addr, e.baseAddr))]);
  }

  lemma FlushRange(c: Ctl, e: MemEvent)
    requires c.region.Valid() && Arrival(c.region, e) && Flush(e)
    ensures c.region.OwnsRange(e.baseAddr, |e.payload|)
  {
  }

  lemma FlushHeld(f: Flat, e: MemEvent, putId: nat, g: Flat)
    requires Flush(e) && e.payload != [] && e.id !in f.waiting && putId !in f.waiting && putId != e.id
    requires FromPim in e.flags || !IsIO(e.addr)
    requires g == f.(waiting := f.waiting[putId := MemEvent(putId, PutM, e.baseAddr, e.baseAddr, true, {NoResponse},
                                                            |e.payload|, e.payload)]
                                         [e.id := e.(cmd := FlushLine)])
    ensures FlatReceive(f, e, putId) == Some(g)
  {
    hide Decode;
  }

  lemma FlatCleanFlush(f: Flat, e: MemEvent, putId: nat, flags: set<Flag>)
    requires Flush(e) && e.payload == [] && e.id !in f.waiting
    requires Mmio !in e.flags && (FromPim in e.flags || !IsIO(e.addr))
    ensures RunFlat(f, [Arrive(e, putId), Complete(e.id, flags, [])])
         == Some((f, [Reaction(NoCall, MakeReply(e.(cmd := FlushLine), flags, [], e.addr, e.baseAddr))]))
  {
    hide Decode, RunFlat;
    var g := f.(waiting := f.waiting[e.id := e.(cmd := FlushLine)]);
    assert g.waiting - {e.id} == f.waiting;
    FlatTwo(f, e, putId, e.id, flags, [], g, f,
            Reaction(NoCall, MakeReply(e.(cmd := FlushLine), flags, [], e.addr, e.baseAddr)));
  }

  /** A flush without data is answered, and that is all. */
  lemma FlushAnswered(c: Ctl, e: MemEvent, putId: nat, flags: set<Flag>)
    requires CtlInv(c) && Arrival(c.region, e) && Plain(c, e) && Flush(e) && e.payload == []
    ensures var es := [Arrive(e, putId), Complete(e.id, flags, [])];
            && LegalCtlRun(c, es) && RunCtl(c, es).Some?
            && var (s, xs) := RunCtl(c, es).value;
               && Landed(c, s, e.baseAddr, []) && s.outstanding.Keys == c.outstanding.Keys
               && |xs| == 1 && xs[0].device == NoCall
               && if NoResponse in e.flags then xs[0].reply == NoReply
                  else Answers(xs[0].reply, e, FlushLineResp, flags)
  {
    SameKeys(c);
    InvGivesValid(c);
    FlushReply(e, flags);
    hide CtlInv, Abs, Landed, LegalCtlRun, RunCtl, RunFlat, Arrival, MakeReply, Answers, Decode, Overlay;
    FlatCleanFlush(Abs(c), e, putId, flags);
    OverlayNothing(Abs(c).mem, e.baseAddr);
    RunLands(c, [Arrive(e, putId), Complete(e.id, flags, [])], e.baseAddr, [],
             [Reaction(NoCall, MakeReply(e.(cmd := FlushLine), flags, [], e.addr, e.baseAddr))]);
  }

  // ---- accesses to the device

  /** From the link, and in the memory-mapped range. */
  predicate Mapped(c: Ctl, e: MemEvent) {
    e.id !in c.outstanding && Mmio !in e.flags && FromPim !in e.flags && IsIO(e.addr)
  }

  lemma FlatMmioWrite(f: Flat, e: MemEvent, putId: nat, flags: set<Flag>) returns (y: Reaction)
    requires e.id !in f.waiting && Mmio !in e.flags && FromPim !in e.flags && IsIO(e.addr) && Noncacheable in e.flags
    requires e.cmd == Write || e.cmd == PutM
    ensures RunFlat(f, [Arrive(e, putId), Complete(e.id, flags, [])]) == Some((f, [y]))
    ensures y.device.DeviceWrite? && y.device.event.addr == e.addr && y.device.event.payload == e.payload
    ensures y.reply == NoReply <==> e.cmd == PutM || NoResponse in e.flags
  {
    hide Decode, RunFlat;
    var held := e.(flags := if e.cmd == PutM then e.flags + {Mmio} + {NoResponse} else e.flags + {Mmio});
    var g := f.(waiting := f.waiting[e.id := held]);
    assert g.waiting - {e.id} == f.waiting;
    y := FlatRespond(g, e.id, flags, []).value.1;
    FlatTwo(f, e, putId, e.id, flags, [], g, f, y);
  }

  /** A memory-mapped write goes to the device as it arrived, and not to the store. */
  lemma MmioWritten(c: Ctl, e: MemEvent, putId: nat, flags: set<Flag>)
    requires CtlInv(c) && Arrival(c.region, e) && Mapped(c, e) && (e.cmd == Write || e.cmd == PutM)
    ensures var es := [Arrive(e, putId), Complete(e.id, flags, [])];
            && LegalCtlRun(c, es) && RunCtl(c, es).Some?
            && var (s, xs) := RunCtl(c, es).value;
               && Landed(c, s, e.addr, []) && s.outstanding.Keys == c.outstanding.Keys
               && |xs| == 1 && xs[0].device.DeviceWrite?
               && xs[0].device.event.addr == e.addr && xs[0].device.event.payload == e.payload
               && (xs[0].reply == NoReply <==> e.cmd == PutM || NoResponse in e.flags)
  {
    SameKeys(c);
    InvGivesValid(c);
    assert Noncacheable in e.flags;
    hide CtlInv, Abs, Landed, LegalCtlRun, RunCtl, RunFlat, Arrival, Decode, Overlay, ToGlobal;
    var y := FlatMmioWrite(Abs(c), e, putId, flags);
    OverlayNothing(Abs(c).mem, e.addr);
    RunLands(c, [Arrive(e, putId), Complete(e.id, flags, [])], e.addr, [], [y]);
  }

  lemma FlatMmioRead(f: Flat, e: MemEvent, putId: nat, flags: set<Flag>, d: seq<byte>) returns (y: Reaction)
    requires e.id !in f.waiting && Mmio !in e.flags && FromPim !in e.flags && IsIO(e.addr) && Noncacheable in e.flags
    requires e.cmd == GetS || e.cmd == GetX || e.cmd == GetSX
    ensures RunFlat(f, [Arrive(e, putId), Complete(e.id, flags, d)]) == Some((f, [y]))
    ensures if NoResponse in e.flags then y == Reaction(NoCall, NoReply)
            else
              && y.device.DeviceRead? && y.device.event.addr == e.addr && y.device.event.size == e.size
              && Answers(y.reply, e, if e.cmd == GetX then GetXResp else GetSResp, flags) && y.reply.event.payload == d
  {
    hide Decode, RunFlat;
    var g := f.(waiting := f.waiting[e.id := e.(flags := e.flags + {Mmio})]);
    assert g.waiting - {e.id} == f.waiting;
    y := FlatRespond(g, e.id, flags, d).value.1;
    FlatTwo(f, e, putId, e.id, flags, d, g, f, y);
  }

  /** A memory-mapped read asks the device at its own address, and its answer carries what the
      device gave. */
  lemma MmioRead(c: Ctl, e: MemEvent, putId: nat, flags: set<Flag>, d: seq<byte>)
    requires CtlInv(c) && Arrival(c.region, e) && Mapped(c, e) && (e.cmd == GetS || e.cmd == GetX || e.cmd == GetSX)
    ensures var es := [Arrive(e, putId), Complete(e.id, flags, d)];
            && LegalCtlRun(c, es) && RunCtl(c, es).Some?
            && var (s, xs) := RunCtl(c, es).value;
               && Landed(c, s, e.addr, []) && s.outstanding.Keys == c.outstanding.Keys && |xs| == 1
               && if NoResponse in e.flags then xs[0] == Reaction(NoCall, NoReply)
                  else
                    && xs[0].device.DeviceRead?
                    && xs[0].device.event.addr == e.addr && xs[0].device.event.size == e.size
                    && Answers(xs[0].reply, e, if e.cmd == GetX then GetXResp else GetSResp, flags)
                    && xs[0].reply.event.payload == d
  {
    SameKeys(c);
    InvGivesValid(c);
    assert Noncacheable in e.flags;
    hide CtlInv, Abs, Landed, LegalCtlRun, RunCtl, RunFlat, Arrival, Decode, Overlay, Answers;
    var y := FlatMmioRead(Abs(c), e, putId, flags, d);
    OverlayNothing(Abs(c).mem, e.addr);
    RunLands(c, [Arrive(e, putId), Complete(e.id, flags, d)], e.addr, [], [y]);
  }

  // ---- what is refused

  /** Exactly which events are refused: memory-mapped accesses of the link that are cacheable,
      requests of the device whose line is not owned, addresses below the region, and unknown
      commands. Clean evictions are taken and leave nothing. */
  lemma RefusedIff(c: Ctl, e: MemEvent, putId: nat)
    requires c.region.Valid()
    ensures Receive(c, e, putId).None? <==>
              || (FromPim !in e.flags && IsIO(e.addr) && Noncacheable !in e.flags)
              || (FromPim in e.flags && !c.region.Owns(e.baseAddr))
              || e.addr < c.region.start || e.baseAddr < c.region.start
              || e.cmd in {GetSResp, GetXResp, WriteResp, FlushLineResp, OtherCmd}
    ensures Receive(c, e, putId).Some? && (e.cmd == PutS || e.cmd == PutE) ==> Receive(c, e, putId) == Some(c)
  {
    hide Decode, ToLocal;
  }

  /** And which answers fail: to a number not in use, and to plain accesses that lie outside the
      store or whose payload is not of their size. */
  lemma AnswerFailsIff(c: Ctl, id: nat, flags: set<Flag>, d: seq<byte>)
    requires c.region.Valid()
    ensures Respond(c, id, flags, d).None? <==>
              || id !in c.outstanding
              || var e := c.outstanding[id];
                 var a := if e.cmd == Write || Noncacheable in e.flags then e.addr else e.baseAddr;
                 && Mmio !in e.flags
                 && (|| ((e.cmd == Write || e.cmd == PutM) && (|e.payload| != e.size || a + e.size > |c.backing|))
                     || ((e.cmd == GetS || e.cmd == GetX || e.cmd == GetSX) && NoResponse !in e.flags
                         && a + e.size > |c.backing|))
  {
    hide ToGlobal, Splice, MakeReply;
  }
}
