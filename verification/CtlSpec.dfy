/** The memory controller as a pure step relation: events are translated and held until
    the backend answers them; the backing store is touched only then. */
module CtlSpec {
  import opened PimDef
  import opened Transfer
  import opened Decoder
  import opened Region

  datatype Cmd =
    | GetS | GetX | GetSX | Write | PutM | PutS | PutE | FlushLine | FlushLineInv
    | GetSResp | GetXResp | WriteResp | FlushLineResp | OtherCmd

  datatype Flag = Noncacheable | NoResponse | FromPim | Mmio

  datatype MemEvent = MemEvent(id: nat, cmd: Cmd, addr: nat, baseAddr: nat, global: bool,
                               flags: set<Flag>, size: nat, payload: seq<byte>) {
    /** The address data moves at: writes use the address, everything else the line's base
        unless the access is noncacheable. */
    function Access(): nat {
      if cmd == Write || Noncacheable in flags then addr else baseAddr
    }

    predicate Writes() {
      cmd == Write || cmd == PutM
    }

    predicate Reads() {
      cmd == GetS || cmd == GetX || cmd == GetSX
    }
  }

  datatype Ctl = Ctl(region: Region, outstanding: map<nat, MemEvent>, backing: seq<byte>)

  /** The command a response carries; the table itself is the framework's. */
  function ResponseTo(c: Cmd): Cmd {
    match c
    case GetS => GetSResp
    case GetSX => GetSResp
    case GetX => GetXResp
    case Write => WriteResp
    case FlushLine => FlushLineResp
    case _ => OtherCmd
  }

  function Localised(r: Region, e: MemEvent): MemEvent
    requires r.Valid() && r.start <= e.addr && r.start <= e.baseAddr
  {
    if e.global then e.(addr := ToLocal(r, e.addr), baseAddr := ToLocal(r, e.baseAddr)) else e
  }

  function Globalised(r: Region, e: MemEvent): MemEvent
    requires r.Valid()
  {
    if e.global then e.(addr := ToGlobal(r, e.addr), baseAddr := ToGlobal(r, e.baseAddr)) else e
  }

  /** Events not made by the device are marked when they address it, and must then be
      noncacheable. */
  function Tag(e: MemEvent): Option<MemEvent> {
    if FromPim in e.flags || !IsIO(e.addr) then Some(e)
    else if Noncacheable in e.flags then Some(e.(flags := e.flags + {Mmio}))
    else None
  }

  /** The write-back half of a flush that carries data. */
  function PutFor(e: MemEvent, putId: nat): MemEvent {
    MemEvent(putId, PutM, e.baseAddr, e.baseAddr, true, {NoResponse}, |e.payload|, e.payload)
  }

  /** std::map insert: a number that is taken keeps the event it has. */
  function Insert(waiting: map<nat, MemEvent>, id: nat, e: MemEvent): map<nat, MemEvent> {
    if id in waiting then waiting else waiting[id := e]
  }

  /** What an event leaves waiting for the backend. */
  function Hold(waiting: map<nat, MemEvent>, e: MemEvent, putId: nat): Option<map<nat, MemEvent>> {
    match e.cmd
    case PutM => Some(Insert(waiting, e.id, e.(flags := e.flags + {NoResponse})))
    case GetS | GetX | GetSX | Write => Some(Insert(waiting, e.id, e))
    case FlushLine | FlushLineInv =>
      var w := if |e.payload| != 0 then Insert(waiting, putId, PutFor(e, putId)) else waiting;
      Some(Insert(w, e.id, e.(cmd := FlushLine)))
    case PutS | PutE => Some(waiting)
    case _ => None
  }

  /** Receiving an event. An address below the region would wrap around and is not modelled. */
  function Receive(c: Ctl, e: MemEvent, putId: nat): Option<Ctl>
    requires c.region.Valid()
  {
    var t :- Tag(e);
    if FromPim in t.flags && !c.region.Owns(t.baseAddr) then None
    else if t.addr < c.region.start || t.baseAddr < c.region.start then None
    else
      var w :- Hold(c.outstanding, Localised(c.region, t), putId);
      Some(c.(outstanding := w))
  }

  datatype DeviceCall = NoCall | DeviceWrite(event: MemEvent) | DeviceRead(event: MemEvent)

  datatype Reply = NoReply | ToPim(event: MemEvent) | ToLink(event: MemEvent)

  datatype Reaction = Reaction(device: DeviceCall, reply: Reply)

  /** The response to an answered event whose data, if it reads, is d. */
  function MakeReply(e: MemEvent, flags: set<Flag>, d: seq<byte>, addr: nat, baseAddr: nat): Reply {
    var cmd := if e.Reads() && Noncacheable !in e.flags then GetXResp else ResponseTo(e.cmd);
    var resp := e.(cmd := cmd, flags := flags, addr := addr, baseAddr := baseAddr,
                   payload := if e.Reads() then d else e.payload,
                   size := if e.Reads() then |d| else e.size);
    if NoResponse in e.flags then NoReply
    else if FromPim in e.flags then ToPim(resp)
    else ToLink(resp)
  }

  predicate InStore(b: seq<byte>, e: MemEvent) {
    e.Access() + e.size <= |b| && (e.Writes() ==> |e.payload| == e.size)
  }

  /** The backend answers event id: data moves now, and the reply goes back to the device or
      the link. A memory-mapped access goes to the device instead of the store (deviceData is
      what it reads there); after a memory-mapped write the reply's address has been
      translated to global twice. */
  function Respond(c: Ctl, id: nat, flags: set<Flag>, deviceData: seq<byte>): Option<(Ctl, Reaction)>
    requires c.region.Valid()
  {
    if id !in c.outstanding then None else
    var r := c.region;
    var e := c.outstanding[id];
    var g := Globalised(r, e);
    var rest := c.(outstanding := c.outstanding - {id});
    if e.Reads() && NoResponse in e.flags then Some((rest, Reaction(NoCall, NoReply)))
    else if Mmio in e.flags && e.Writes() then
      var f := g.(flags := g.flags - {Mmio});
      var gg := Globalised(r, f);
      Some((rest, Reaction(DeviceWrite(f), MakeReply(f, flags, [], gg.addr, gg.baseAddr))))
    else if Mmio in e.flags && e.Reads() then
      var f := g.(cmd := ResponseTo(e.cmd), flags := g.flags - {Mmio});
      Some((rest, Reaction(DeviceRead(f), MakeReply(e, flags, deviceData, g.addr, g.baseAddr))))
    else if e.Writes() then
      if !InStore(c.backing, e) then None
      else Some((rest.(backing := Splice(c.backing, e.Access(), e.payload)),
                 Reaction(NoCall, MakeReply(e, flags, [], g.addr, g.baseAddr))))
    else if e.Reads() then
      if !InStore(c.backing, e) then None
      else Some((rest, Reaction(NoCall, MakeReply(e, flags, c.backing[e.Access()..e.Access() + e.size],
                                                  g.addr, g.baseAddr))))
    else Some((rest, Reaction(NoCall, MakeReply(e, flags, [], g.addr, g.baseAddr))))
  }
}
