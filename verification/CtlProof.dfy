/** The controller over its backing store refines a flat byte memory keyed by global
    address, whose operations happen in the order in which the backend completes them. */
module CtlProof {
  import opened PimDef
  import opened Transfer
  import opened Decoder
  import opened Region
  import opened CtlSpec

  datatype Flat = Flat(mem: map<nat, byte>, waiting: map<nat, MemEvent>)

  function Overlay(m: map<nat, byte>, a: nat, d: seq<byte>): map<nat, byte> {
    map g | g in m :: if a <= g < a + |d| then d[g - a] else m[g]
  }

  predicate Covers(m: map<nat, byte>, a: nat, n: nat) {
    forall g :: a <= g < a + n ==> g in m
  }

  function Slice(m: map<nat, byte>, a: nat, n: nat): (s: seq<byte>)
    requires Covers(m, a, n)
    ensures |s| == n
  {
    seq(n, i requires 0 <= i < n => m[a + i])
  }

  function FlatReceive(f: Flat, e: MemEvent, putId: nat): Option<Flat> {
    var t :- Tag(e);
    var w :- Hold(f.waiting, t, putId);
    Some(f.(waiting := w))
  }

  /** No translation anywhere: data moves at the event's own address, and every reply
      carries it. */
  function FlatRespond(f: Flat, id: nat, flags: set<Flag>, deviceData: seq<byte>): Option<(Flat, Reaction)> {
    if id !in f.waiting then None else
    var e := f.waiting[id];
    var rest := f.(waiting := f.waiting - {id});
    var plain := e.(flags := e.flags - {Mmio});
    if e.Reads() && NoResponse in e.flags then Some((rest, Reaction(NoCall, NoReply)))
    else if Mmio in e.flags && e.Writes() then
      Some((rest, Reaction(DeviceWrite(plain), MakeReply(plain, flags, [], e.addr, e.baseAddr))))
    else if Mmio in e.flags && e.Reads() then
      Some((rest, Reaction(DeviceRead(plain.(cmd := ResponseTo(e.cmd))),
                           MakeReply(e, flags, deviceData, e.addr, e.baseAddr))))
    else if e.Writes() then
      Some((rest.(mem := Overlay(f.mem, e.Access(), e.payload)),
            Reaction(NoCall, MakeReply(e, flags, [], e.addr, e.baseAddr))))
    else if e.Reads() then
      if !Covers(f.mem, e.Access(), e.size) then None
      else Some((rest, Reaction(NoCall, MakeReply(e, flags, Slice(f.mem, e.Access(), e.size), e.addr, e.baseAddr))))
    else Some((rest, Reaction(NoCall, MakeReply(e, flags, [], e.addr, e.baseAddr))))
  }

  // ---- the abstraction

  function FlatMem(r: Region, b: seq<byte>): map<nat, byte>
    requires r.Valid() && r.Extent() <= |b|
  {
    map g: nat | r.start <= g <= r.end && r.Owns(g) :: BelowExtent(r, g); b[ToLocal(r, g)]
  }

  function Abs(c: Ctl): Flat
    requires c.region.Valid() && c.region.Extent() <= |c.backing|
  {
    Flat(FlatMem(c.region, c.backing), AbsWaiting(c.region, c.outstanding))
  }

  function AbsWaiting(r: Region, w: map<nat, MemEvent>): map<nat, MemEvent>
    requires r.Valid()
  {
    map id | id in w :: Globalised(r, w[id])
  }

  /** What the controller checks of an event when built for debugging: both addresses are
      its own, and the accessed range lies inside one chunk. */
  predicate WellPlaced(r: Region, e: MemEvent)
    requires r.Valid()
  {
    && e.global && r.Owns(e.addr) && r.Owns(e.baseAddr)
    && ((e.Writes() || e.Reads()) ==> r.OwnsRange(e.Access(), e.size))
    && (e.Writes() ==> |e.payload| == e.size)
  }

  /** A held event is the local image of a well-placed one. */
  predicate Held(r: Region, e: MemEvent)
    requires r.Valid()
  {
    && e.global
    && WellPlaced(r, Globalised(r, e))
    && e.addr == ToLocal(r, ToGlobal(r, e.addr)) && e.baseAddr == ToLocal(r, ToGlobal(r, e.baseAddr))
  }

  predicate CtlInv(c: Ctl) {
    && c.region.Valid() && c.region.Extent() <= |c.backing|
    && AllHeld(c.region, c.outstanding)
  }

  predicate AllHeld(r: Region, w: map<nat, MemEvent>)
    requires r.Valid()
  {
    forall id :: id in w ==> Held(r, w[id])
  }

  // ---- data

  lemma InsideIffInside(r: Region, a: nat, n: nat, g: nat)
    requires r.Valid() && r.OwnsRange(a, n) && r.Owns(g)
    ensures a <= g < a + n <==> ToLocal(r, a) <= ToLocal(r, g) < ToLocal(r, a) + n
    ensures a <= g < a + n ==> ToLocal(r, g) - ToLocal(r, a) == g - a
  {
    if g < a {
      OrderKept(r, g, a);
    } else if g < a + n {
      ChunkKept(r, a, n, g - a);
    } else if n > 0 {
      ChunkKept(r, a, n, n - 1);
      OrderKept(r, a + (n - 1), g);
    }
  }

  lemma RangeInStore(r: Region, a: nat, n: nat)
    requires r.Valid() && r.OwnsRange(a, n)
    ensures ToLocal(r, a) + n <= r.Extent()
  {
    BelowExtent(r, a);
    if n > 0 {
      ChunkKept(r, a, n, n - 1);
      BelowExtent(r, a + (n - 1));
    }
  }

  /** Writing a chunk's local image is overlaying the flat memory. */
  lemma WriteOverlays(r: Region, b: seq<byte>, a: nat, d: seq<byte>)
    requires r.Valid() && r.Extent() <= |b| && r.OwnsRange(a, |d|)
    ensures ToLocal(r, a) + |d| <= |b|
    ensures FlatMem(r, Splice(b, ToLocal(r, a), d)) == Overlay(FlatMem(r, b), a, d)
  {
    RangeInStore(r, a, |d|);
    var m, w := FlatMem(r, Splice(b, ToLocal(r, a), d)), Overlay(FlatMem(r, b), a, d);
    forall g: nat | g in m
      ensures m[g] == w[g]
    {
      BelowExtent(r, g);
      InsideIffInside(r, a, |d|, g);
    }
  }

  /** Reading it is slicing the flat memory. */
  lemma ReadSlices(r: Region, b: seq<byte>, a: nat, n: nat)
    requires r.Valid() && r.Extent() <= |b| && r.OwnsRange(a, n)
    ensures ToLocal(r, a) + n <= |b| && Covers(FlatMem(r, b), a, n)
    ensures b[ToLocal(r, a)..ToLocal(r, a) + n] == Slice(FlatMem(r, b), a, n)
  {
    RangeInStore(r, a, n);
    var l, m := ToLocal(r, a), FlatMem(r, b);
    forall g: nat | a <= g < a + n
      ensures g in m && m[g] == b[l + (g - a)]
    {
      ChunkKept(r, a, n, g - a);
    }
    var s := Slice(m, a, n);
    forall i | 0 <= i < n
      ensures s[i] == b[l..l + n][i]
    {
      var g := a + i;
      assert m[g] == b[l + (g - a)];
    }
  }

  // ---- one step

  lemma HoldLocal(r: Region, e: MemEvent)
    requires r.Valid() && WellPlaced(r, e)
    ensures Globalised(r, Localised(r, e)) == e && Held(r, Localised(r, e))
  {
    GlobalOfLocal(r, e.addr);
    GlobalOfLocal(r, e.baseAddr);
  }

  lemma AbsUpdate(r: Region, w: map<nat, MemEvent>, id: nat, e: MemEvent)
    requires r.Valid() && AllHeld(r, w) && WellPlaced(r, e)
    ensures AllHeld(r, Insert(w, id, Localised(r, e)))
    ensures AbsWaiting(r, Insert(w, id, Localised(r, e))) == Insert(AbsWaiting(r, w), id, e)
  {
    hide Held, Localised, Globalised;
    HoldLocal(r, e);
  }

  lemma HoldSimulated(r: Region, w: map<nat, MemEvent>, e: MemEvent, putId: nat)
    requires r.Valid() && AllHeld(r, w) && WellPlaced(r, e) && Hold(w, e, putId).Some?
    requires e.cmd in {FlushLine, FlushLineInv} ==> r.OwnsRange(e.baseAddr, |e.payload|)
    ensures Hold(w, Localised(r, e), putId).Some? && AllHeld(r, Hold(w, Localised(r, e), putId).value)
    ensures Hold(AbsWaiting(r, w), e, putId) == Some(AbsWaiting(r, Hold(w, Localised(r, e), putId).value))
  {
    hide Held, Globalised, ToLocal, AllHeld, AbsWaiting, Insert;
    var l := Localised(r, e);
    match e.cmd {
      case PutM =>
        AbsUpdate(r, w, e.id, e.(flags := e.flags + {NoResponse}));
      case GetS | GetX | GetSX | Write =>
        AbsUpdate(r, w, e.id, e);
      case FlushLine | FlushLineInv =>
        if |e.payload| != 0 {
          AbsUpdate(r, w, putId, PutFor(e, putId));
          AbsUpdate(r, Insert(w, putId, PutFor(l, putId)), e.id, e.(cmd := FlushLine));
        } else {
          AbsUpdate(r, w, e.id, e.(cmd := FlushLine));
        }
      case _ =>
    }
  }

  /** What may arrive: a well-placed event of a known command, noncacheable if it is for the
      device, whose flushed line, if any, lies inside one chunk. */
  predicate Arrival(r: Region, e: MemEvent)
    requires r.Valid()
  {
    && WellPlaced(r, e)
    && e.cmd in {GetS, GetX, GetSX, Write, PutM, PutS, PutE, FlushLine, FlushLineInv}
    && (FromPim !in e.flags && IsIO(e.addr) ==> Noncacheable in e.flags)
    && (e.cmd in {FlushLine, FlushLineInv} ==> r.OwnsRange(e.baseAddr, |e.payload|))
  }

  /** Receiving is holding the event at its own address. */
  lemma ReceiveSimulated(c: Ctl, e: MemEvent, putId: nat)
    requires CtlInv(c) && Arrival(c.region, e)
    ensures Receive(c, e, putId).Some? && CtlInv(Receive(c, e, putId).value)
    ensures FlatReceive(Abs(c), e, putId) == Some(Abs(Receive(c, e, putId).value))
  {
    hide Hold, AllHeld, AbsWaiting, FlatMem, Decode;
    HoldKnown(c.outstanding, e, putId);
    HoldSimulated(c.region, c.outstanding, Tag(e).value, putId);
  }

  lemma HoldKnown(w: map<nat, MemEvent>, e: MemEvent, putId: nat)
    requires e.cmd in {GetS, GetX, GetSX, Write, PutM, PutS, PutE, FlushLine, FlushLineInv}
    requires FromPim !in e.flags && IsIO(e.addr) ==> Noncacheable in e.flags
    ensures Tag(e).Some? && Hold(w, Tag(e).value, putId).Some?
  {
  }

  /** Where the answer of a memory-mapped write says it went. */
  function Retranslated(r: Region, y: Reply): Reply
    requires r.Valid()
  {
    match y
    case NoReply => NoReply
    case ToPim(e) => ToPim(Globalised(r, e))
    case ToLink(e) => ToLink(Globalised(r, e))
  }

  /** The same state and device access and the same reply, except that the reply to a
      memory-mapped write has had its address translated once more. */
  predicate Matches(r: Region, s: Ctl, x: Reaction, f: Flat, y: Reaction)
    requires r.Valid()
  {
    && CtlInv(s) && s.region == r && Abs(s) == f && x.device == y.device
    && x.reply == if x.device.DeviceWrite? then Retranslated(r, y.reply) else y.reply
  }

  lemma HeldData(r: Region, e: MemEvent)
    requires r.Valid() && Held(r, e) && (e.Writes() || e.Reads())
    ensures var g := Globalised(r, e);
            && r.OwnsRange(g.Access(), e.size) && e.Access() == ToLocal(r, g.Access())
            && (e.Writes() ==> |e.payload| == e.size)
  {
    hide ToLocal, ToGlobal;
  }

  lemma RespondWrite(c: Ctl, id: nat, flags: set<Flag>, d: seq<byte>)
    requires CtlInv(c) && id in c.outstanding && c.outstanding[id].Writes() && Mmio !in c.outstanding[id].flags
    ensures Respond(c, id, flags, d).Some? && FlatRespond(Abs(c), id, flags, d).Some?
    ensures var (s, x) := Respond(c, id, flags, d).value;
            var (f, y) := FlatRespond(Abs(c), id, flags, d).value; Matches(c.region, s, x, f, y)
  {
    hide FlatMem, AllHeld, AbsWaiting, Splice, Overlay, ToLocal, ToGlobal, WellPlaced;
    AbsRemove(c.region, c.outstanding, id);
    var e := c.outstanding[id];
    HeldData(c.region, e);
    WriteOverlays(c.region, c.backing, Globalised(c.region, e).Access(), e.payload);
  }

  lemma RespondRead(c: Ctl, id: nat, flags: set<Flag>, d: seq<byte>)
    requires CtlInv(c) && id in c.outstanding && c.outstanding[id].Reads() && Mmio !in c.outstanding[id].flags
    ensures Respond(c, id, flags, d).Some? && FlatRespond(Abs(c), id, flags, d).Some?
    ensures var (s, x) := Respond(c, id, flags, d).value;
            var (f, y) := FlatRespond(Abs(c), id, flags, d).value; Matches(c.region, s, x, f, y)
  {
    hide FlatMem, AllHeld, AbsWaiting, ToLocal, ToGlobal, Slice, Covers, WellPlaced;
    AbsRemove(c.region, c.outstanding, id);
    var e := c.outstanding[id];
    HeldData(c.region, e);
    ReadSlices(c.region, c.backing, Globalised(c.region, e).Access(), e.size);
  }

  lemma RespondOther(c: Ctl, id: nat, flags: set<Flag>, d: seq<byte>)
    requires CtlInv(c) && id in c.outstanding
    requires Mmio in c.outstanding[id].flags || !(c.outstanding[id].Writes() || c.outstanding[id].Reads())
    ensures Respond(c, id, flags, d).Some? && FlatRespond(Abs(c), id, flags, d).Some?
    ensures var (s, x) := Respond(c, id, flags, d).value;
            var (f, y) := FlatRespond(Abs(c), id, flags, d).value; Matches(c.region, s, x, f, y)
  {
    hide FlatMem, AllHeld, AbsWaiting, ToLocal, ToGlobal;
    AbsRemove(c.region, c.outstanding, id);
  }

  /** Answering is what the flat memory does. */
  lemma RespondSimulated(c: Ctl, id: nat, flags: set<Flag>, d: seq<byte>)
    requires CtlInv(c) && id in c.outstanding
    ensures Respond(c, id, flags, d).Some? && FlatRespond(Abs(c), id, flags, d).Some?
    ensures var (s, x) := Respond(c, id, flags, d).value;
            var (f, y) := FlatRespond(Abs(c), id, flags, d).value; Matches(c.region, s, x, f, y)
  {
    hide Respond, FlatRespond, Matches;
    var e := c.outstanding[id];
    if Mmio !in e.flags && e.Writes() {
      RespondWrite(c, id, flags, d);
    } else if Mmio !in e.flags && e.Reads() {
      RespondRead(c, id, flags, d);
    } else {
      RespondOther(c, id, flags, d);
    }
  }

  lemma AbsRemove(r: Region, w: map<nat, MemEvent>, id: nat)
    requires r.Valid() && AllHeld(r, w) && id in w
    ensures AllHeld(r, w - {id}) && AbsWaiting(r, w - {id}) == AbsWaiting(r, w) - {id}
    ensures id in AbsWaiting(r, w) && AbsWaiting(r, w)[id] == Globalised(r, w[id]) && Held(r, w[id])
  {
    hide Held, Globalised;
  }

  // ---- the reply to a memory-mapped write

  predicate MmioWrite(e: MemEvent) {
    e.Writes() && Mmio in e.flags && NoResponse !in e.flags
  }

  /** Translating the address a once more is harmless. */
  predicate Unmoved(r: Region, a: nat) {
    r.start == 0 && (r.size == r.step || a < r.size)
  }

  /** Exactly when the reply to a memory-mapped write carries the address that was written:
      its address was translated to global twice. */
  lemma MmioReplyIff(c: Ctl, id: nat, flags: set<Flag>, d: seq<byte>)
    requires CtlInv(c) && id in c.outstanding && MmioWrite(c.outstanding[id])
    ensures Respond(c, id, flags, d).Some? && !Respond(c, id, flags, d).value.1.reply.NoReply?
    ensures var g := Globalised(c.region, c.outstanding[id]);
            var reply := Respond(c, id, flags, d).value.1.reply.event;
            && Respond(c, id, flags, d).value.1.device == DeviceWrite(g.(flags := g.flags - {Mmio}))
            && (reply.addr == g.addr <==> Unmoved(c.region, g.addr))
            && (reply.baseAddr == g.baseAddr <==> Unmoved(c.region, g.baseAddr))
  {
    hide ToLocal, ToGlobal, WellPlaced;
    AbsRemove(c.region, c.outstanding, id);
    var g := Globalised(c.region, c.outstanding[id]);
    GlobalAgainIff(c.region, g.addr);
    GlobalAgainIff(c.region, g.baseAddr);
  }
}
