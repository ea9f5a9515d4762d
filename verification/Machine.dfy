/** Device and controller as one machine: the device keeps no DRAM of its own, its requests are
    events of the controller among those from the link, and their data moves in the backing
    store. Every run of the machine is a run of the device over a flat DRAM. */
module Machine {
  import opened PimDef
  import opened Bytes
  import opened Transfer
  import opened Decoder
  import opened Region
  import D = DmaSpec
  import P = DmaProof
  import R = DmaRun
  import opened CtlSpec
  import opened CtlProof
  import opened Bridge

  /** Of its own DRAM the device here knows the size only: all its bytes are zero. */
  datatype Machine = Machine(dev: D.Pim, ctl: Ctl)

  function WithDram(p: D.Pim, d: seq<byte>): D.Pim {
    p.(core := p.core.(mem := p.core.mem.(dram := d)))
  }

  function Blank(p: D.Pim): D.Pim {
    WithDram(p, Zeros(|p.core.mem.dram|))
  }

  /** Event numbers of the device are even, those of the link odd. */
  function Number(id: nat): nat {
    2 * id
  }

  datatype MachineEvent =
    | ClockTick
    | FromLink(event: MemEvent, putId: nat)
    | Answered(number: nat, flags: set<Flag>)

  /** The requests numbered from first to last, sent in order. */
  function Send(c: Ctl, flight: map<nat, D.Request>, first: nat, last: nat): Option<Ctl>
    requires c.region.Valid()
    decreases last - first
  {
    if first >= last then Some(c)
    else if first !in flight then None
    else
      var c1 :- Receive(c, DeviceEvent(Number(first), flight[first]), 0);
      if !c1.region.Valid() then None else Send(c1, flight, first + 1, last)
  }

  /** A response reaches the device and its callback. */
  function Deliver(p: D.Pim, id: nat, d: seq<byte>): Option<D.Pim> {
    var c := p.core;
    if id !in c.flight || id !in c.pending then None else
    var fn := c.pending[id].fn;
    var (f, b) :- D.Complete(c.pending[id], p.Fsm(fn), c.buffer, d);
    Some(p.WithFsm(fn, f).(core := D.Core(b, c.mem, c.pending - {id}, c.flight - {id}, c.nextId)))
  }

  /** What the device answers to a memory-mapped read; other events need nothing from it. */
  function DeviceData(p: D.Pim, g: MemEvent): Option<seq<byte>> {
    if Mmio in g.flags && g.Reads() && NoResponse !in g.flags then D.HostRead(p, g.addr, g.size) else Some([])
  }

  /** What the controller's reaction does to the device. */
  function React(p: D.Pim, number: nat, x: Reaction): Option<D.Pim> {
    if x.reply.ToPim? then Deliver(p, number / 2, x.reply.event.payload)
    else if x.device.DeviceWrite? then D.HostWrite(p, x.device.event.addr, x.device.event.payload)
    else Some(p)
  }

  function MachineStep(m: Machine, e: MachineEvent): Option<(Machine, Reply)>
    requires m.ctl.region.Valid()
  {
    match e
    case ClockTick =>
      var q :- D.Clock(m.dev);
      var c :- Send(m.ctl, q.core.flight, m.dev.core.nextId, q.core.nextId);
      Some((Machine(q, c), NoReply))
    case FromLink(event, putId) =>
      var c :- Receive(m.ctl, event, putId);
      Some((Machine(m.dev, c), NoReply))
    case Answered(number, flags) =>
      if number !in m.ctl.outstanding then None else
      var d :- DeviceData(m.dev, Globalised(m.ctl.region, m.ctl.outstanding[number]));
      var (c, x) :- Respond(m.ctl, number, flags, d);
      var q :- React(m.dev, number, x);
      Some((Machine(q, c), x.reply))
  }

  /** What a step is to the device over a flat DRAM. */
  function DeviceEvents(m: Machine, e: MachineEvent): seq<D.Event>
    requires m.ctl.region.Valid()
  {
    match e
    case ClockTick => [D.Tick]
    case FromLink(_, _) => []
    case Answered(number, _) =>
      if number !in m.ctl.outstanding then [] else
      var g := Globalised(m.ctl.region, m.ctl.outstanding[number]);
      if number % 2 == 0 then [D.Answer(number / 2)]
      else if g.Writes() then [D.Put(g.Access(), g.payload)]
      else if g.Reads() && NoResponse !in g.flags then [D.Get(g.Access(), g.size)]
      else []
  }

  /** What the link may send: events numbered by it, whose line lies on one side of the
      memory-mapped range, and flushes only of lines outside it. */
  predicate LinkEvent(r: Region, e: MemEvent, putId: nat)
    requires r.Valid()
  {
    && Arrival(r, e) && e.id % 2 == 1 && putId % 2 == 1
    && FromPim !in e.flags && Mmio !in e.flags && IsIO(e.baseAddr) == IsIO(e.addr)
    && (e.cmd in {FlushLine, FlushLineInv} ==> !IsIO(e.addr))
  }

  /** What the surroundings may do. A request of the device lies in one owned chunk; what
      completes from the link is as legal as it would be at a device over a flat DRAM. */
  predicate LegalMachine(m: Machine, e: MachineEvent)
    requires m.ctl.region.Valid()
  {
    match e
    case ClockTick =>
      D.Clock(m.dev).Some? ==>
        var q := D.Clock(m.dev).value.core;
        forall id :: id in q.flight && id !in m.dev.core.flight ==>
          m.ctl.region.OwnsRange(q.flight[id].addr, |q.flight[id].payload|)
    case FromLink(event, putId) => LinkEvent(m.ctl.region, event, putId)
    case Answered(number, _) =>
      && number in m.ctl.outstanding
      && (number % 2 == 1 && MmioOrWrites(Globalised(m.ctl.region, m.ctl.outstanding[number])) ==>
            forall x :: x in DeviceEvents(m, e) ==> R.Legal(m.dev, x))
  }

  predicate MmioOrWrites(g: MemEvent) {
    g.Writes() || Mmio in g.flags
  }

  // ---- the relation to a device over a flat DRAM

  /** A held event of the link is marked exactly when it is for the device. */
  predicate LinkHeld(g: MemEvent) {
    && FromPim !in g.flags
    && (Mmio in g.flags ==> Noncacheable in g.flags)
    && (g.Writes() || g.Reads() ==> IsIO(g.Access()) == (Mmio in g.flags))
  }

  /** The even-numbered events are the device's outstanding requests. */
  ghost predicate RequestsHeld(w: map<nat, MemEvent>, flight: map<nat, D.Request>) {
    && (forall id: nat :: Number(id) in w <==> id in flight)
    && (forall id :: id in flight ==> w[Number(id)] == DeviceEvent(Number(id), flight[id]))
  }

  predicate LinkOk(w: map<nat, MemEvent>) {
    forall n :: n in w && n % 2 == 1 ==> LinkHeld(w[n])
  }

  /** The machine is the device p, its DRAM taken out, over a controller that mirrors that DRAM
      and holds p's requests. */
  ghost predicate Rel(m: Machine, p: D.Pim) {
    && CtlInv(m.ctl) && R.Inv(p) && m.dev == Blank(p)
    && Mirrors(Abs(m.ctl).mem, p.core.mem.dram)
    && RequestsHeld(Abs(m.ctl).waiting, p.core.flight) && LinkOk(Abs(m.ctl).waiting)
  }

  // ---- the device does not look at its DRAM

  lemma FsmIgnoresDram(fn: D.Fn, f: D.Fsm, c: D.Core, d: seq<byte>)
    requires |d| == |c.mem.dram|
    ensures D.ClockFsm(fn, f, c.(mem := c.mem.(dram := d))) ==
      match D.ClockFsm(fn, f, c)
      case None => None
      case Some((e, g, done)) => Some((e.(mem := e.mem.(dram := d)), g, done))
    ensures D.ClockFsm(fn, f, c).Some? ==> D.ClockFsm(fn, f, c).value.0.mem.dram == c.mem.dram
  {
  }

  lemma SlotIgnoresDram(p: D.Pim, fn: D.Fn, d: seq<byte>)
    requires |d| == |p.core.mem.dram|
    ensures D.ClockSlot(WithDram(p, d), fn) ==
      match D.ClockSlot(p, fn) case None => None case Some((q, done)) => Some((WithDram(q, d), done))
    ensures D.ClockSlot(p, fn).Some? ==> D.ClockSlot(p, fn).value.0.core.mem.dram == p.core.mem.dram
  {
    hide D.ClockFsm;
    FsmIgnoresDram(fn, p.Fsm(fn), p.core, d);
  }

  lemma ClockIgnoresDram(p: D.Pim, d: seq<byte>)
    requires |d| == |p.core.mem.dram|
    ensures D.Clock(WithDram(p, d)) == match D.Clock(p) case None => None case Some(q) => Some(WithDram(q, d))
    ensures D.Clock(p).Some? ==> D.Clock(p).value.core.mem.dram == p.core.mem.dram
  {
    hide D.ClockSlot;
    SlotIgnoresDram(p, D.F1, d);
    if D.ClockSlot(p, D.F1).Some? {
      SlotIgnoresDram(D.ClockSlot(p, D.F1).value.0, D.U5, d);
    }
  }

  lemma HostIgnoresDram(p: D.Pim, a: nat, b: seq<byte>, d: seq<byte>)
    requires IsIO(a) && |d| == |p.core.mem.dram|
    ensures D.HostWrite(WithDram(p, d), a, b) ==
      match D.HostWrite(p, a, b) case None => None case Some(q) => Some(WithDram(q, d))
    ensures D.HostWrite(p, a, b).Some? ==> D.HostWrite(p, a, b).value.core.mem.dram == p.core.mem.dram
    ensures forall n: nat :: D.HostRead(WithDram(p, d), a, n) == D.HostRead(p, a, n)
  {
    hide Decode, D.WriteFsm, D.Start, Splice;
  }

  lemma LegalIgnoresDram(p: D.Pim, d: seq<byte>, e: D.Event)
    requires |d| == |p.core.mem.dram| && (e.Put? || (e.Get? && IsIO(e.addr)))
    ensures R.Legal(WithDram(p, d), e) == R.Legal(p, e)
  {
    hide Decode, D.WriteFsm;
    if e.Get? {
      HostIgnoresDram(p, e.addr, [], d);
    } else {
      var q := WithDram(p, d);
      assert forall l: Loc, n: nat :: InBank(q.core.mem, l, n) == InBank(p.core.mem, l, n);
      assert forall fn, l: Loc, n: nat :: R.ClearOf(q, fn, l, n) == R.ClearOf(p, fn, l, n);
      assert forall fn, w: word :: R.LegalCommand(q, fn, w) == R.LegalCommand(p, fn, w);
    }
  }

  // ---- the device's clock

  lemma EngineSends(j: P.Job, f: D.Fsm, c: D.Core)
    requires P.Engaged(j, f, c)
    ensures D.ClockFsm(j.fn, f, c).Some?
    ensures var d := D.ClockFsm(j.fn, f, c).value.0;
            || (d.nextId == c.nextId && d.flight == c.flight)
            || (d.nextId == c.nextId + 1 && c.flight == map[] && d.flight.Keys == {c.nextId})
  {
    hide D.ClockFsm, P.Target, P.Steady;
    match f.dma {
      case Read => if f.srcSram { P.ReadSram(j, f, c); } else { P.IssueRead(j, f, c); }
      case Write => if f.dstSram { P.WriteSram(j, f, c); } else { P.IssueWrite(j, f, c); }
      case Waiting => P.ClockWaiting(j, f, c);
      case Done => P.ClockDone(j, f, c);
    }
  }

  /** A clock issues nothing, or one request while none is outstanding. */
  lemma ClockSends(p: D.Pim)
    requires R.Inv(p)
    ensures D.Clock(p).Some? && R.Inv(D.Clock(p).value)
    ensures var q := D.Clock(p).value;
            || (q.core.nextId == p.core.nextId && q.core.flight == p.core.flight)
            || (q.core.nextId == p.core.nextId + 1 && p.core.flight == map[] && q.core.flight.Keys == {p.core.nextId})
  {
    hide P.Engaged, P.Target, D.ClockFsm;
    R.TickSimulated(p);
    if R.Running(p, D.F1) {
      EngineSends(R.JobIn(p, D.F1), p.copy, p.core);
      R.ClockRunning(p, D.F1);
    } else if R.Running(p, D.U5) {
      EngineSends(R.JobIn(p, D.U5), p.mul, p.core);
      R.ClockRunning(p, D.U5);
    }
  }

  /** The request a clock issued is sent, and held. */
  lemma SendOne(c: Ctl, flight: map<nat, D.Request>, n: nat)
    requires CtlInv(c) && c.region.Valid() && c.region.Extent() <= |c.backing|
    requires n in flight && c.region.OwnsRange(flight[n].addr, |flight[n].payload|) && Number(n) !in c.outstanding
    ensures Send(c, flight, n, n + 1).Some?
    ensures var s := Send(c, flight, n, n + 1).value;
            CtlInv(s) && Abs(s) ==
              Abs(c).(waiting := Abs(c).waiting[Number(n) := DeviceEvent(Number(n), flight[n])])
  {
    hide CtlInv, Abs, Receive;
    RequestAccepted(c, Number(n), flight[n], 0);
    var s := Receive(c, DeviceEvent(Number(n), flight[n]), 0).value;
    HeldIsOutstanding(s);
    assert Send(s, flight, n + 1, n + 1) == Some(s);
  }

  lemma SendsSimulated(c: Ctl, p: D.Pim, q: D.Pim)
    requires CtlInv(c) && c.region.Valid() && c.region.Extent() <= |c.backing|
    requires RequestsHeld(Abs(c).waiting, p.core.flight) && LinkOk(Abs(c).waiting)
    requires || (q.core.nextId == p.core.nextId && q.core.flight == p.core.flight)
             || (q.core.nextId == p.core.nextId + 1 && p.core.flight == map[] && q.core.flight.Keys == {p.core.nextId})
    requires forall id :: id in q.core.flight && id !in p.core.flight ==>
               c.region.OwnsRange(q.core.flight[id].addr, |q.core.flight[id].payload|)
    ensures Send(c, q.core.flight, p.core.nextId, q.core.nextId).Some?
    ensures var s := Send(c, q.core.flight, p.core.nextId, q.core.nextId).value;
            && CtlInv(s) && Abs(s).mem == Abs(c).mem
            && RequestsHeld(Abs(s).waiting, q.core.flight) && LinkOk(Abs(s).waiting)
  {
    hide CtlInv, Abs, Send, DeviceEvent, LinkHeld;
    HeldIsOutstanding(c);
    var n := p.core.nextId;
    if q.core.nextId > n {
      assert n in q.core.flight && Number(n) !in Abs(c).waiting;
      SendOne(c, q.core.flight, n);
    } else {
      SendNone(c, q.core.flight, n);
    }
  }

  lemma ClockSimulated(m: Machine, p: D.Pim)
    requires Rel(m, p) && LegalMachine(m, ClockTick)
    ensures MachineStep(m, ClockTick).Some? && D.Clock(p).Some?
    ensures Rel(MachineStep(m, ClockTick).value.0, D.Clock(p).value)
  {
    hide R.Inv, CtlInv, Abs, D.Clock, Send, Mirrors, RequestsHeld, LinkOk;
    HeldIsOutstanding(m.ctl);
    ClockSends(p);
    ClockIgnoresDram(p, Zeros(|p.core.mem.dram|));
    SendsSimulated(m.ctl, p, D.Clock(p).value);
  }

  lemma SendNone(c: Ctl, flight: map<nat, D.Request>, n: nat)
    requires c.region.Valid()
    ensures Send(c, flight, n, n) == Some(c)
  {
  }

  lemma HeldIsOutstanding(c: Ctl)
    requires CtlInv(c)
    ensures c.region.Valid() && c.region.Extent() <= |c.backing|
    ensures Abs(c).waiting.Keys == c.outstanding.Keys
    ensures forall n :: n in c.outstanding ==> Abs(c).waiting[n] == Globalised(c.region, c.outstanding[n])
  {
    hide Held, Globalised, FlatMem;
  }

  // ---- events from the link

  lemma InsertLinks(w: map<nat, MemEvent>, n: nat, e: MemEvent, flight: map<nat, D.Request>)
    requires RequestsHeld(w, flight) && LinkOk(w) && n % 2 == 1 && LinkHeld(e)
    ensures RequestsHeld(Insert(w, n, e), flight) && LinkOk(Insert(w, n, e))
  {
    hide LinkHeld;
  }

  /** Every event an arrival from the link leaves waiting. */
  lemma TaggedIsHeld(r: Region, e: MemEvent, putId: nat)
    requires r.Valid() && LinkEvent(r, e, putId)
    ensures Tag(e).Some?
    ensures var t := Tag(e).value;
            && t.id == e.id && t.cmd == e.cmd && t.payload == e.payload
            && LinkHeld(t) && LinkHeld(t.(flags := t.flags + {NoResponse})) && LinkHeld(t.(cmd := FlushLine))
            && (e.cmd in {FlushLine, FlushLineInv} ==> LinkHeld(PutFor(t, putId)))
  {
    hide WellPlaced, Decode, Hold;
  }

  lemma HoldLinks(r: Region, w: map<nat, MemEvent>, e: MemEvent, putId: nat, flight: map<nat, D.Request>)
    requires r.Valid() && LinkEvent(r, e, putId) && RequestsHeld(w, flight) && LinkOk(w)
    requires Tag(e).Some? && Hold(w, Tag(e).value, putId).Some?
    ensures RequestsHeld(Hold(w, Tag(e).value, putId).value, flight)
    ensures LinkOk(Hold(w, Tag(e).value, putId).value)
  {
    TaggedIsHeld(r, e, putId);
    hide Arrival, Decode, LinkHeld, RequestsHeld, LinkOk, Insert, Tag;
    var t := Tag(e).value;
    match t.cmd {
      case PutM => InsertLinks(w, t.id, t.(flags := t.flags + {NoResponse}), flight);
      case GetS | GetX | GetSX | Write => InsertLinks(w, t.id, t, flight);
      case FlushLine | FlushLineInv =>
        var v := w;
        if |t.payload| != 0 {
          InsertLinks(w, putId, PutFor(t, putId), flight);
          v := Insert(w, putId, PutFor(t, putId));
        }
        InsertLinks(v, t.id, t.(cmd := FlushLine), flight);
      case _ =>
    }
  }

  lemma LinkSimulated(m: Machine, p: D.Pim, e: MemEvent, putId: nat)
    requires Rel(m, p) && LegalMachine(m, FromLink(e, putId))
    ensures MachineStep(m, FromLink(e, putId)).Some? && Rel(MachineStep(m, FromLink(e, putId)).value.0, p)
  {
    hide R.Inv, CtlInv, Abs, Receive, Hold, RequestsHeld, LinkOk, Mirrors;
    HeldIsOutstanding(m.ctl);
    ReceiveSimulated(m.ctl, e, putId);
    HoldLinks(m.ctl.region, Abs(m.ctl).waiting, e, putId, p.core.flight);
  }

  // ---- answers

  lemma WithoutRequest(w: map<nat, MemEvent>, flight: map<nat, D.Request>, id: nat)
    requires RequestsHeld(w, flight) && Number(id) in w
    ensures id in flight && w[Number(id)] == DeviceEvent(Number(id), flight[id])
    ensures RequestsHeld(w - {Number(id)}, flight - {id})
  {
    hide DeviceEvent;
  }

  lemma WithoutLink(w: map<nat, MemEvent>, flight: map<nat, D.Request>, n: nat)
    requires RequestsHeld(w, flight) && n % 2 == 1
    ensures RequestsHeld(w - {n}, flight)
  {
    hide DeviceEvent;
  }

  lemma LinksRemain(w: map<nat, MemEvent>, n: nat)
    requires LinkOk(w)
    ensures LinkOk(w - {n}) && (n in w && n % 2 == 1 ==> LinkHeld(w[n]))
  {
    hide LinkHeld;
  }

  /** The device gets what the memory holds, and its callback runs as over a flat DRAM. */
  lemma DeliverSimulated(p: D.Pim, id: nat, d: seq<byte>)
    requires D.Respond(p, id).Some?
    requires var r := p.core.flight[id];
             d == if r.isWrite then r.payload else p.core.mem.dram[r.addr..r.addr + |r.payload|]
    ensures Deliver(Blank(p), id, d) == Some(Blank(D.Respond(p, id).value))
    ensures var r, q := p.core.flight[id], D.Respond(p, id).value;
            && q.core.flight == p.core.flight - {id}
            && q.core.mem.dram == if r.isWrite then Splice(p.core.mem.dram, r.addr, r.payload) else p.core.mem.dram
  {
    hide D.Complete, Splice;
  }

  lemma DeviceAnswered(m: Machine, p: D.Pim, n: nat, flags: set<Flag>)
    requires Rel(m, p) && LegalMachine(m, Answered(n, flags)) && n % 2 == 0
    ensures R.Legal(p, D.Answer(n / 2)) && D.Respond(p, n / 2).Some?
    ensures MachineStep(m, Answered(n, flags)).Some?
    ensures Rel(MachineStep(m, Answered(n, flags)).value.0, D.Respond(p, n / 2).value)
  {
    hide R.Inv, CtlInv, Abs, Respond, Deliver, D.Respond, RequestsHeld, LinkOk, Mirrors;
    HeldIsOutstanding(m.ctl);
    var w, id := Abs(m.ctl).waiting, n / 2;
    assert Number(id) == n;
    WithoutRequest(w, p.core.flight, id);
    LinksRemain(w, n);
    var r := p.core.flight[id];
    R.AnswerSimulated(p, id);
    AnswerInBank(p, id);
    if r.isWrite {
      WriteAnswered(m.ctl, n, r, flags, p.core.mem.dram);
    } else {
      ReadAnswered(m.ctl, n, r, flags, p.core.mem.dram);
    }
    DeliverSimulated(p, id, Respond(m.ctl, n, flags, []).value.1.reply.event.payload);
  }

  lemma AnswerInBank(p: D.Pim, id: nat)
    requires D.Respond(p, id).Some?
    ensures id in p.core.flight && p.core.flight[id].addr + |p.core.flight[id].payload| <= |p.core.mem.dram|
  {
  }

  /** A write of the link that is for the memory. */
  lemma LinkWriteAnswered(m: Machine, p: D.Pim, n: nat, flags: set<Flag>)
    requires Rel(m, p) && LegalMachine(m, Answered(n, flags)) && n % 2 == 1
    requires var g := Globalised(m.ctl.region, m.ctl.outstanding[n]); g.Writes() && Mmio !in g.flags
    ensures var g := Globalised(m.ctl.region, m.ctl.outstanding[n]);
            && R.Legal(p, D.Put(g.Access(), g.payload)) && D.HostWrite(p, g.Access(), g.payload).Some?
            && MachineStep(m, Answered(n, flags)).Some?
            && Rel(MachineStep(m, Answered(n, flags)).value.0, D.HostWrite(p, g.Access(), g.payload).value)
  {
    hide R.Inv, CtlInv, FlatMem, AbsWaiting, Respond, RequestsHeld, LinkOk, R.Legal, Splice, Overlay;
    HeldIsOutstanding(m.ctl);
    var g := Globalised(m.ctl.region, m.ctl.outstanding[n]);
    WithoutLink(Abs(m.ctl).waiting, p.core.flight, n);
    LinksRemain(Abs(m.ctl).waiting, n);
    LegalIgnoresDram(p, Zeros(|p.core.mem.dram|), D.Put(g.Access(), g.payload));
    R.PutSimulated(p, g.Access(), g.payload);
    RespondSimulated(m.ctl, n, flags, []);
    OverlayMirrors(Abs(m.ctl).mem, p.core.mem.dram, g.Access(), g.payload);
  }

  lemma OverlayMirrors(m: map<nat, byte>, dram: seq<byte>, a: nat, d: seq<byte>)
    requires Mirrors(m, dram) && a + |d| <= |dram|
    ensures Mirrors(Overlay(m, a, d), Splice(dram, a, d))
  {
  }

  /** A write of the link that is for the device. */
  lemma MmioWriteAnswered(m: Machine, p: D.Pim, n: nat, flags: set<Flag>)
    requires Rel(m, p) && LegalMachine(m, Answered(n, flags)) && n % 2 == 1
    requires var g := Globalised(m.ctl.region, m.ctl.outstanding[n]); g.Writes() && Mmio in g.flags
    ensures var g := Globalised(m.ctl.region, m.ctl.outstanding[n]);
            && R.Legal(p, D.Put(g.Access(), g.payload)) && D.HostWrite(p, g.Access(), g.payload).Some?
            && MachineStep(m, Answered(n, flags)).Some?
            && Rel(MachineStep(m, Answered(n, flags)).value.0, D.HostWrite(p, g.Access(), g.payload).value)
  {
    hide R.Inv, CtlInv, FlatMem, AbsWaiting, Respond, RequestsHeld, LinkOk, R.Legal, Mirrors, D.HostWrite;
    HeldIsOutstanding(m.ctl);
    var g := Globalised(m.ctl.region, m.ctl.outstanding[n]);
    WithoutLink(Abs(m.ctl).waiting, p.core.flight, n);
    LinksRemain(Abs(m.ctl).waiting, n);
    LegalIgnoresDram(p, Zeros(|p.core.mem.dram|), D.Put(g.Access(), g.payload));
    R.PutSimulated(p, g.Access(), g.payload);
    RespondSimulated(m.ctl, n, flags, []);
    HostIgnoresDram(p, g.addr, g.payload, Zeros(|p.core.mem.dram|));
    HostKeepsFlight(p, g.addr, g.payload);
  }

  lemma HostKeepsFlight(p: D.Pim, a: nat, d: seq<byte>)
    requires D.HostWrite(p, a, d).Some?
    ensures D.HostWrite(p, a, d).value.core.flight == p.core.flight
  {
  }

  /** A read of the link that is answered: it carries its own address, and the bytes that the
      device over a flat DRAM would have given. */
  lemma LinkReadAnswered(m: Machine, p: D.Pim, n: nat, flags: set<Flag>)
    requires Rel(m, p) && LegalMachine(m, Answered(n, flags)) && n % 2 == 1
    requires var g := Globalised(m.ctl.region, m.ctl.outstanding[n]); g.Reads() && NoResponse !in g.flags
    ensures MachineStep(m, Answered(n, flags)).Some? && Rel(MachineStep(m, Answered(n, flags)).value.0, p)
    ensures var g := Globalised(m.ctl.region, m.ctl.outstanding[n]);
            var reply := MachineStep(m, Answered(n, flags)).value.1;
            && reply.ToLink? && reply.event.addr == g.addr && reply.event.baseAddr == g.baseAddr
            && R.Legal(p, D.Get(g.Access(), g.size))
            && D.HostRead(p, g.Access(), g.size) == Some(reply.event.payload)
  {
    hide R.Inv, CtlInv, FlatMem, AbsWaiting, Respond, RequestsHeld, LinkOk, Mirrors, D.HostRead, Slice, Covers;
    HeldIsOutstanding(m.ctl);
    var g := Globalised(m.ctl.region, m.ctl.outstanding[n]);
    WithoutLink(Abs(m.ctl).waiting, p.core.flight, n);
    LinksRemain(Abs(m.ctl).waiting, n);
    if Mmio in g.flags {
      assert D.Get(g.Access(), g.size) in DeviceEvents(m, Answered(n, flags));
      HostIgnoresDram(p, g.addr, [], Zeros(|p.core.mem.dram|));
      RespondSimulated(m.ctl, n, flags, D.HostRead(p, g.addr, g.size).value);
    } else {
      RespondSimulated(m.ctl, n, flags, []);
      ReadIsOwned(m.ctl, n);
      MirroredRead(p, Abs(m.ctl).mem, g.Access(), g.size);
    }
  }

  lemma ReadIsOwned(c: Ctl, n: nat)
    requires CtlInv(c) && n in c.outstanding && Globalised(c.region, c.outstanding[n]).Reads()
    ensures Globalised(c.region, c.outstanding[n]).Access() in Abs(c).mem
  {
    hide ToLocal, ToGlobal, AbsWaiting;
    AbsRemove(c.region, c.outstanding, n);
    assert Held(c.region, c.outstanding[n]);
  }

  lemma MirroredRead(p: D.Pim, m: map<nat, byte>, a: nat, n: nat)
    requires Mirrors(m, p.core.mem.dram) && Covers(m, a, n) && a in m && !IsIO(a)
    ensures D.HostRead(p, a, n) == Some(Slice(m, a, n))
  {
    EndIsMirrored(m, p.core.mem.dram, a, n);
    SliceMirrors(m, p.core.mem.dram, a, n);
    hide Slice, Mirrors, Covers, IsIO;
  }

  lemma EndIsMirrored(m: map<nat, byte>, dram: seq<byte>, a: nat, n: nat)
    requires Mirrors(m, dram) && Covers(m, a, n) && a in m
    ensures a + n <= |dram|
  {
    assert n > 0 ==> a + (n - 1) in m;
  }

  /** Anything else of the link moves no data and does nothing to the device. */
  lemma OtherAnswered(m: Machine, p: D.Pim, n: nat, flags: set<Flag>)
    requires Rel(m, p) && LegalMachine(m, Answered(n, flags)) && n % 2 == 1
    requires var g := Globalised(m.ctl.region, m.ctl.outstanding[n]);
             !g.Writes() && (g.Reads() ==> NoResponse in g.flags)
    ensures MachineStep(m, Answered(n, flags)).Some? && Rel(MachineStep(m, Answered(n, flags)).value.0, p)
  {
    hide R.Inv, CtlInv, FlatMem, AbsWaiting, Respond, RequestsHeld, LinkOk, Mirrors, D.HostRead;
    HeldIsOutstanding(m.ctl);
    WithoutLink(Abs(m.ctl).waiting, p.core.flight, n);
    LinksRemain(Abs(m.ctl).waiting, n);
    RespondSimulated(m.ctl, n, flags, []);
  }

  // ---- steps and runs

  /** One step of the machine is at most one legal step of the device over a flat DRAM. */
  lemma MachineStepSimulated(m: Machine, p: D.Pim, e: MachineEvent)
    requires Rel(m, p) && LegalMachine(m, e)
    ensures MachineStep(m, e).Some? && R.LegalRun(p, DeviceEvents(m, e)) && D.Run(p, DeviceEvents(m, e)).Some?
    ensures Rel(MachineStep(m, e).value.0, D.Run(p, DeviceEvents(m, e)).value)
  {
    hide Rel, MachineStep, R.Inv, CtlInv, D.Clock, D.Respond, D.HostWrite, D.HostRead, R.Legal;
    RelValid(m, p);
    match e {
      case ClockTick =>
        ClockSimulated(m, p);
        LegalTick(p);
        OneEvent(p, D.Tick);
      case FromLink(event, putId) => LinkSimulated(m, p, event, putId);
      case Answered(n, flags) =>
        var g := Globalised(m.ctl.region, m.ctl.outstanding[n]);
        if n % 2 == 0 {
          DeviceAnswered(m, p, n, flags);
          OneEvent(p, D.Answer(n / 2));
        } else if g.Writes() {
          if Mmio in g.flags {
            MmioWriteAnswered(m, p, n, flags);
          } else {
            LinkWriteAnswered(m, p, n, flags);
          }
          OneEvent(p, D.Put(g.Access(), g.payload));
        } else if g.Reads() && NoResponse !in g.flags {
          LinkReadAnswered(m, p, n, flags);
          OneEvent(p, D.Get(g.Access(), g.size));
        } else {
          OtherAnswered(m, p, n, flags);
        }
    }
  }

  lemma LegalTick(p: D.Pim)
    ensures R.Legal(p, D.Tick)
  {
  }

  lemma OneEvent(p: D.Pim, e: D.Event)
    requires R.Legal(p, e) && D.Step(p, e).Some?
    ensures R.LegalRun(p, [e]) && D.Run(p, [e]) == D.Step(p, e)
  {
    hide D.Step, R.Legal;
    assert [e][1..] == [];
    assert D.Run(D.Step(p, e).value, []) == D.Step(p, e);
  }

  function MachineRun(m: Machine, es: seq<MachineEvent>): Option<Machine>
    requires m.ctl.region.Valid()
    decreases |es|
  {
    if es == [] then Some(m) else
    var (n, _) :- MachineStep(m, es[0]);
    if !n.ctl.region.Valid() then None else MachineRun(n, es[1..])
  }

  predicate LegalMachineRun(m: Machine, es: seq<MachineEvent>)
    requires m.ctl.region.Valid()
    decreases |es|
  {
    es == []
    || (LegalMachine(m, es[0])
        && (MachineStep(m, es[0]).Some? && MachineStep(m, es[0]).value.0.ctl.region.Valid() ==>
              LegalMachineRun(MachineStep(m, es[0]).value.0, es[1..])))
  }

  /** What a run of the machine is to the device over a flat DRAM. */
  function DeviceRun(m: Machine, es: seq<MachineEvent>): seq<D.Event>
    requires m.ctl.region.Valid()
    decreases |es|
  {
    if es == [] then [] else
    DeviceEvents(m, es[0])
    + if MachineStep(m, es[0]).Some? && MachineStep(m, es[0]).value.0.ctl.region.Valid()
      then DeviceRun(MachineStep(m, es[0]).value.0, es[1..]) else []
  }

  lemma RelValid(m: Machine, p: D.Pim)
    requires Rel(m, p)
    ensures m.ctl.region.Valid() && m.ctl.region.Extent() <= |m.ctl.backing| && R.Inv(p)
  {
  }

  /** The composition theorem: every run of device and controller together, whatever else the
      controller holds and in whatever order the memory answers, is a legal run of the device
      over a flat DRAM, which the controller's memory mirrors throughout. */
  lemma {:induction false} MachineRefines(m: Machine, p: D.Pim, es: seq<MachineEvent>)
    requires Rel(m, p) && LegalMachineRun(m, es)
    ensures MachineRun(m, es).Some? && R.LegalRun(p, DeviceRun(m, es)) && D.Run(p, DeviceRun(m, es)).Some?
    ensures Rel(MachineRun(m, es).value, D.Run(p, DeviceRun(m, es)).value)
    decreases |es|
  {
    hide Rel, MachineStep, LegalMachine, DeviceEvents, R.LegalRun, D.Run, R.Inv;
    RelValid(m, p);
    if es == [] {
      NoEvents(p);
    } else {
      MachineStepSimulated(m, p, es[0]);
      var n, q := MachineStep(m, es[0]).value.0, D.Run(p, DeviceEvents(m, es[0])).value;
      RelValid(n, q);
      MachineRefines(n, q, es[1..]);
      R.RunJoins(p, DeviceEvents(m, es[0]), DeviceRun(n, es[1..]));
    }
  }

  lemma NoEvents(p: D.Pim)
    ensures R.LegalRun(p, []) && D.Run(p, []) == Some(p)
  {
  }

  /** So between moments at which no function runs, each owned byte of the backing store is,
      at its local address, what the calls and the completed writes make of DRAM: each call
      whole, all in the order in which they started and completed. */
  lemma StoreAfterCalls(m: Machine, p: D.Pim, es: seq<MachineEvent>, g: nat)
    requires Rel(m, p) && LegalMachineRun(m, es) && m.ctl.region.Valid()
    requires !R.Running(m.dev, D.F1) && !R.Running(m.dev, D.U5)
    requires MachineRun(m, es).Some? ==>
      !R.Running(MachineRun(m, es).value.dev, D.F1) && !R.Running(MachineRun(m, es).value.dev, D.U5)
    ensures MachineRun(m, es).Some?
    ensures var c, d := MachineRun(m, es).value.ctl, R.Replay(p.core.mem, R.Log(p, DeviceRun(m, es))).dram;
            c.region.Valid() && (c.region.Owns(g) ==>
              g < |d| && ToLocal(c.region, g) < |c.backing| && c.backing[ToLocal(c.region, g)] == d[g])
  {
    hide R.Inv, MachineRun, R.LegalRun, D.Run, DeviceRun, LegalMachineRun, R.Replay, R.Log, CtlInv;
    MachineRefines(m, p, es);
    var n, q := MachineRun(m, es).value, D.Run(p, DeviceRun(m, es)).value;
    R.QuietRunIsReplay(p, DeviceRun(m, es));
    RelValid(n, q);
    if n.ctl.region.Owns(g) {
      BelowExtent(n.ctl.region, g);
      assert g in Abs(n.ctl).mem;
    }
  }

  // ---- a start

  /** A DRAM that the controller's memory mirrors. */
  function DramOf(m: map<nat, byte>, size: nat): seq<byte> {
    seq(size, g requires 0 <= g < size => if g in m then m[g] else 0)
  }

  /** A device as constructed, over a controller that holds nothing and owns addresses below
      the memory size only. */
  lemma MachineStarts(dev: D.Pim, c: Ctl)
    requires R.Initial(dev) && dev == Blank(dev)
    requires CtlInv(c) && c.outstanding == map[] && c.region.end < |dev.core.mem.dram|
    ensures Rel(Machine(dev, c), WithDram(dev, DramOf(Abs(c).mem, |dev.core.mem.dram|)))
  {
  }
}
