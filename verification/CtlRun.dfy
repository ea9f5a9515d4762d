/** Whole runs of the controller: any order of answers, and reads that return exactly the
    bytes of the latest completed writes. */
module CtlRun {
  import opened PimDef
  import opened Decoder
  import opened Region
  import opened CtlSpec
  import opened CtlProof

  datatype CtlEvent =
    | Arrive(event: MemEvent, putId: nat)
    | Complete(id: nat, flags: set<Flag>, deviceData: seq<byte>)

  function CtlStep(c: Ctl, e: CtlEvent): Option<(Ctl, seq<Reaction>)>
    requires c.region.Valid()
  {
    match e
    case Arrive(ev, putId) =>
      var s :- Receive(c, ev, putId);
      Some((s, []))
    case Complete(id, flags, d) =>
      var (s, x) :- Respond(c, id, flags, d);
      Some((s, [x]))
  }

  function FlatStep(f: Flat, e: CtlEvent): Option<(Flat, seq<Reaction>)> {
    match e
    case Arrive(ev, putId) =>
      var s :- FlatReceive(f, ev, putId);
      Some((s, []))
    case Complete(id, flags, d) =>
      var (s, x) :- FlatRespond(f, id, flags, d);
      Some((s, [x]))
  }

  predicate LegalCtl(c: Ctl, e: CtlEvent)
    requires c.region.Valid()
  {
    match e
    case Arrive(ev, _) => Arrival(c.region, ev)
    case Complete(id, _, _) => id in c.outstanding
  }

  function RunCtl(c: Ctl, es: seq<CtlEvent>): Option<(Ctl, seq<Reaction>)>
    requires c.region.Valid()
    decreases |es|
  {
    if es == [] then Some((c, [])) else
    var (s, xs) :- CtlStep(c, es[0]);
    if !s.region.Valid() then None else
    var (t, ys) :- RunCtl(s, es[1..]);
    Some((t, xs + ys))
  }

  function RunFlat(f: Flat, es: seq<CtlEvent>): Option<(Flat, seq<Reaction>)>
    decreases |es|
  {
    if es == [] then Some((f, [])) else
    var (s, xs) :- FlatStep(f, es[0]);
    var (t, ys) :- RunFlat(s, es[1..]);
    Some((t, xs + ys))
  }

  predicate LegalCtlRun(c: Ctl, es: seq<CtlEvent>)
    requires CtlInv(c)
    decreases |es|
  {
    es == [] || (LegalCtl(c, es[0])
                 && (CtlStep(c, es[0]).Some? && CtlInv(CtlStep(c, es[0]).value.0) ==>
                       LegalCtlRun(CtlStep(c, es[0]).value.0, es[1..])))
  }

  predicate SameReaction(r: Region, x: Reaction, y: Reaction)
    requires r.Valid()
  {
    x.device == y.device && x.reply == if x.device.DeviceWrite? then Retranslated(r, y.reply) else y.reply
  }

  predicate SameReactions(r: Region, xs: seq<Reaction>, ys: seq<Reaction>)
    requires r.Valid()
  {
    |xs| == |ys| && forall i :: 0 <= i < |xs| ==> SameReaction(r, xs[i], ys[i])
  }

  lemma CtlStepSimulated(c: Ctl, e: CtlEvent)
    requires CtlInv(c) && LegalCtl(c, e)
    ensures CtlStep(c, e).Some? && FlatStep(Abs(c), e).Some?
    ensures var (s, xs) := CtlStep(c, e).value;
            var (f, ys) := FlatStep(Abs(c), e).value;
            CtlInv(s) && s.region == c.region && Abs(s) == f && SameReactions(c.region, xs, ys)
  {
    hide Receive, Respond, FlatReceive, FlatRespond, AllHeld, AbsWaiting, FlatMem, Retranslated;
    match e {
      case Arrive(ev, putId) =>
        ReceiveSimulated(c, ev, putId);
        ReceiveKeepsRegion(c, ev, putId);
      case Complete(id, flags, d) =>
        RespondSimulated(c, id, flags, d);
    }
  }

  lemma ReceiveKeepsRegion(c: Ctl, e: MemEvent, putId: nat)
    requires c.region.Valid() && Receive(c, e, putId).Some?
    ensures Receive(c, e, putId).value.region == c.region
  {
  }

  /** The refinement theorem: a run of the controller is a run of the flat memory. */
  lemma {:induction false} CtlRefinesFlat(c: Ctl, es: seq<CtlEvent>)
    requires CtlInv(c) && LegalCtlRun(c, es)
    ensures RunCtl(c, es).Some? && RunFlat(Abs(c), es).Some?
    ensures var (s, xs) := RunCtl(c, es).value;
            var (f, ys) := RunFlat(Abs(c), es).value;
            CtlInv(s) && s.region == c.region && Abs(s) == f && SameReactions(c.region, xs, ys)
    decreases |es|
  {
    hide CtlInv, Abs, CtlStep, FlatStep, LegalCtl, SameReaction;
    InvGivesValid(c);
    if es != [] {
      CtlStepSimulated(c, es[0]);
      var s := CtlStep(c, es[0]).value.0;
      InvGivesValid(s);
      CtlRefinesFlat(s, es[1..]);
    }
  }

  /** The flat memory's reply y to a memory-mapped write survives the second translation. */
  predicate ReplyKept(r: Region, y: Reaction) {
    y.device.DeviceWrite? && !y.reply.NoReply? && y.reply.event.global ==>
      Unmoved(r, y.reply.event.addr) && Unmoved(r, y.reply.event.baseAddr)
  }

  lemma SameReactionIff(r: Region, x: Reaction, y: Reaction)
    requires r.Valid() && SameReaction(r, x, y)
    ensures x == y <==> ReplyKept(r, y)
  {
    if !y.reply.NoReply? {
      GlobalAgainIff(r, y.reply.event.addr);
      GlobalAgainIff(r, y.reply.event.baseAddr);
    }
  }

  /** So, reaction by reaction, the controller does exactly what the flat memory does, if and
      only if no memory-mapped write's reply is moved. */
  lemma RepliesKeptIff(c: Ctl, es: seq<CtlEvent>)
    requires CtlInv(c) && LegalCtlRun(c, es)
    ensures RunCtl(c, es).Some? && RunFlat(Abs(c), es).Some?
    ensures var (xs, ys) := (RunCtl(c, es).value.1, RunFlat(Abs(c), es).value.1);
            && |xs| == |ys|
            && (forall i :: 0 <= i < |xs| ==> (xs[i] == ys[i] <==> ReplyKept(c.region, ys[i])))
  {
    hide CtlInv, Abs, RunCtl, RunFlat, LegalCtlRun, SameReaction, ReplyKept;
    InvGivesValid(c);
    CtlRefinesFlat(c, es);
    var xs, ys := RunCtl(c, es).value.1, RunFlat(Abs(c), es).value.1;
    forall i | 0 <= i < |xs|
      ensures xs[i] == ys[i] <==> ReplyKept(c.region, ys[i])
    {
      SameReactionIff(c.region, xs[i], ys[i]);
    }
  }

  /** The lower half of every 8 KiB, over the whole gigabyte. */
  const GAPPED: Region := Region(0, 0x3fff_ffff, 0x1000, 0x2000)

  /** INIT written to function slot 1, by an event numbered 0. */
  const SLOT_WRITE: MemEvent :=
    MemEvent(0, Write, 0x0e00_0008, 0x0e00_0008, true, {Noncacheable}, 8, [0, 0, 0, 0, 0, 0, 0, 0])

  const SLOT_MARKED: MemEvent := SLOT_WRITE.(flags := {Noncacheable, Mmio})

  lemma SlotWriteHeld(c: Ctl)
    requires c.region == GAPPED && c.outstanding == map[]
    ensures GAPPED.Valid() && Arrival(GAPPED, SLOT_WRITE)
    ensures Receive(c, SLOT_WRITE, 1) ==
              Some(c.(outstanding := map[0 := SLOT_MARKED.(addr := 0x0700_0008, baseAddr := 0x0700_0008)]))
  {
    assert ToLocal(GAPPED, 0x0e00_0008) == 0x0700_0008;
    assert SLOT_WRITE.flags + {Mmio} == SLOT_MARKED.flags;
    assert Tag(SLOT_WRITE) == Some(SLOT_MARKED);
  }

  lemma SlotWriteAnswered(c: Ctl)
    requires c.region == GAPPED && GAPPED.Valid()
    requires c.outstanding == map[0 := SLOT_MARKED.(addr := 0x0700_0008, baseAddr := 0x0700_0008)]
    ensures Respond(c, 0, {}, []).Some?
    ensures var x := Respond(c, 0, {}, []).value.1;
            x.device == DeviceWrite(SLOT_WRITE) && x.reply.ToLink? && x.reply.event.addr == 0x1c00_0008
  {
    assert ToGlobal(GAPPED, 0x0700_0008) == 0x0e00_0008 && ToGlobal(GAPPED, 0x0e00_0008) == 0x1c00_0008;
    assert SLOT_MARKED.flags - {Mmio} == SLOT_WRITE.flags;
  }

  lemma JustComplete(s: Ctl, id: nat, flags: set<Flag>, d: seq<byte>)
    requires CtlInv(s) && id in s.outstanding
    ensures LegalCtlRun(s, [Complete(id, flags, d)]) && Respond(s, id, flags, d).Some?
    ensures RunCtl(s, [Complete(id, flags, d)]).Some?
    ensures RunCtl(s, [Complete(id, flags, d)]).value.1 == [Respond(s, id, flags, d).value.1]
  {
    RespondSimulated(s, id, flags, d);
    var (t, x) := Respond(s, id, flags, d).value;
    InvGivesValid(t);
    hide CtlInv, Respond, Abs;
    var es := [Complete(id, flags, d)];
    assert es[1..] == [];
    assert RunCtl(t, []) == Some((t, []));
    assert [x] + [] == [x];
  }

  lemma FirstStep(c: Ctl, e: CtlEvent, s: Ctl, es: seq<CtlEvent>)
    requires CtlInv(c) && CtlInv(s) && c.region.Valid() && LegalCtl(c, e) && CtlStep(c, e) == Some((s, []))
    requires s.region.Valid() && LegalCtlRun(s, es) && RunCtl(s, es).Some?
    ensures LegalCtlRun(c, [e] + es) && RunCtl(c, [e] + es) == RunCtl(s, es)
  {
    hide CtlInv, CtlStep, LegalCtl;
    var all := [e] + es;
    assert all[0] == e && all[1..] == es;
    var (t, ys) := RunCtl(s, es).value;
    assert [] + ys == ys;
  }

  /** A memory-mapped write whose reply is wrong: the device gets the write at the slot's own
      address, and the reply says that it went to 0x1c000008. */
  lemma MmioReplyMoved(c: Ctl)
    requires CtlInv(c) && c.region == GAPPED && c.outstanding == map[]
    ensures var es := [Arrive(SLOT_WRITE, 1)] + [Complete(0, {}, [])];
            && LegalCtlRun(c, es) && RunCtl(c, es).Some? && |RunCtl(c, es).value.1| == 1
            && var x := RunCtl(c, es).value.1[0];
               && x.device == DeviceWrite(SLOT_WRITE)
               && x.reply.ToLink? && x.reply.event.addr == 0x1c00_0008
  {
    hide CtlInv, RunCtl, LegalCtlRun, Receive, Respond, Arrival;
    SlotWriteHeld(c);
    ReceiveSimulated(c, SLOT_WRITE, 1);
    var s := Receive(c, SLOT_WRITE, 1).value;
    SlotWriteAnswered(s);
    JustComplete(s, 0, {}, []);
    FirstStep(c, Arrive(SLOT_WRITE, 1), s, [Complete(0, {}, [])]);
  }

  lemma InvGivesValid(c: Ctl)
    requires CtlInv(c)
    ensures c.region.Valid() && c.region.Extent() <= |c.backing|
  {
  }

  // ---- what reads return

  datatype Written = Written(addr: nat, data: seq<byte>)

  /** The store writes a run completes, in completion order. */
  function WriteLog(f: Flat, es: seq<CtlEvent>): seq<Written>
    decreases |es|
  {
    if es == [] then []
    else StepLog(f, es[0]) + if FlatStep(f, es[0]).Some? then WriteLog(FlatStep(f, es[0]).value.0, es[1..]) else []
  }

  function StepLog(f: Flat, e: CtlEvent): seq<Written> {
    if e.Complete? && e.id in f.waiting then StoreOf(f.waiting[e.id]) else []
  }

  /** A write goes to its address; a write-back to its line's base unless it is noncacheable. */
  function WritesAt(e: MemEvent): nat {
    if e.cmd == PutM && Noncacheable !in e.flags then e.baseAddr else e.addr
  }

  /** A completed event writes its payload unless it was for the device. */
  function StoreOf(e: MemEvent): seq<Written> {
    if e.Writes() && Mmio !in e.flags then [Written(WritesAt(e), e.payload)] else []
  }

  /** The byte at g: from the last write that covers it, or as it was initially. */
  function LatestByte(init: map<nat, byte>, log: seq<Written>, g: nat): byte
    requires g in init
    decreases |log|
  {
    if log == [] then init[g] else
    var w := log[|log| - 1];
    if w.addr <= g < w.addr + |w.data| then w.data[g - w.addr]
    else LatestByte(init, log[..|log| - 1], g)
  }

  function Latest(init: map<nat, byte>, log: seq<Written>): map<nat, byte> {
    map g | g in init :: LatestByte(init, log, g)
  }

  lemma {:induction false} LatestFromFront(init: map<nat, byte>, w: Written, log: seq<Written>, g: nat)
    requires g in init
    ensures LatestByte(init, [w] + log, g) == LatestByte(Overlay(init, w.addr, w.data), log, g)
    decreases |log|
  {
    var all := [w] + log;
    if log == [] {
      assert all[..|all| - 1] == [];
    } else {
      assert all[|all| - 1] == log[|log| - 1];
      assert all[..|all| - 1] == [w] + log[..|log| - 1];
      LatestFromFront(init, w, log[..|log| - 1], g);
    }
  }

  lemma FlatStepStores(f: Flat, e: CtlEvent)
    requires FlatStep(f, e).Some?
    ensures var log := StepLog(f, e);
            FlatStep(f, e).value.0.mem == if log == [] then f.mem else Overlay(f.mem, log[0].addr, log[0].data)
  {
    hide Hold, MakeReply, Overlay;
  }

  lemma {:induction false} FlatMemIsLatest(f: Flat, es: seq<CtlEvent>)
    requires RunFlat(f, es).Some?
    ensures RunFlat(f, es).value.0.mem == Latest(f.mem, WriteLog(f, es))
    decreases |es|
  {
    hide FlatStep, Overlay, Latest, StepLog;
    if es == [] {
      LatestOfNothing(f.mem);
    } else {
      var s := FlatStep(f, es[0]).value.0;
      var rest, log := WriteLog(s, es[1..]), StepLog(f, es[0]);
      FlatMemIsLatest(s, es[1..]);
      FlatStepStores(f, es[0]);
      AtMostOneStore(f, es[0]);
      if log == [] {
        assert log + rest == rest;
      } else {
        assert log == [log[0]];
        LatestAfterOverlay(f.mem, log[0], rest);
      }
    }
  }

  lemma LatestOfNothing(m: map<nat, byte>)
    ensures Latest(m, []) == m
  {
  }

  lemma AtMostOneStore(f: Flat, e: CtlEvent)
    ensures |StepLog(f, e)| <= 1
  {
  }

  lemma LatestAfterOverlay(init: map<nat, byte>, w: Written, log: seq<Written>)
    ensures Latest(Overlay(init, w.addr, w.data), log) == Latest(init, [w] + log)
  {
    forall g | g in init
      ensures LatestByte(init, [w] + log, g) == LatestByte(Overlay(init, w.addr, w.data), log, g)
    {
      LatestFromFront(init, w, log, g);
    }
  }

  // ---- what arrivals ask for

  /** What is to be expected of a number in use: a store, a plain read's event, or neither. */
  datatype Entry = Stores(written: Written) | Loads(event: MemEvent) | Neither

  predicate ForDevice(e: MemEvent) {
    Mmio in e.flags || (FromPim !in e.flags && IsIO(e.addr))
  }

  function Note(books: map<nat, Entry>, id: nat, n: Entry): map<nat, Entry> {
    if id in books then books else books[id := n]
  }

  /** An arrival's entries: a write stores at its address, a write-back at its line's base or,
      noncacheable, at its address, a flush that carries data at its line's base. */
  function Booked(books: map<nat, Entry>, e: MemEvent, putId: nat): map<nat, Entry> {
    match e.cmd
    case Write => Note(books, e.id, if ForDevice(e) then Neither else Stores(Written(e.addr, e.payload)))
    case PutM =>
      var a := if Noncacheable in e.flags then e.addr else e.baseAddr;
      Note(books, e.id, if ForDevice(e) then Neither else Stores(Written(a, e.payload)))
    case GetS | GetX | GetSX => Note(books, e.id, if ForDevice(e) then Neither else Loads(e))
    case FlushLine | FlushLineInv =>
      var b := if e.payload == [] then books else Note(books, putId, Stores(Written(e.baseAddr, e.payload)));
      Note(b, e.id, Neither)
    case _ => books
  }

  /** The books after a run, from arrivals and completions alone. */
  function BooksAfter(books: map<nat, Entry>, es: seq<CtlEvent>): map<nat, Entry>
    decreases |es|
  {
    if es == [] then books else
    match es[0]
    case Arrive(e, putId) => BooksAfter(Booked(books, e, putId), es[1..])
    case Complete(id, _, _) => BooksAfter(books - {id}, es[1..])
  }

  /** The stores a run asked for, in the order in which they complete. */
  function StoresIn(books: map<nat, Entry>, es: seq<CtlEvent>): seq<Written>
    decreases |es|
  {
    if es == [] then [] else
    match es[0]
    case Arrive(e, putId) => StoresIn(Booked(books, e, putId), es[1..])
    case Complete(id, _, _) =>
      (if id in books && books[id].Stores? then [books[id].written] else []) + StoresIn(books - {id}, es[1..])
  }

  /** The entry an event that is held amounts to. */
  function EntryOf(e: MemEvent): Entry {
    if Mmio in e.flags then Neither
    else if e.Writes() then Stores(Written(WritesAt(e), e.payload))
    else if e.Reads() then Loads(e)
    else Neither
  }

  function BooksOf(w: map<nat, MemEvent>): map<nat, Entry> {
    map id | id in w :: EntryOf(w[id])
  }

  lemma InsertNotes(w: map<nat, MemEvent>, id: nat, e: MemEvent)
    ensures BooksOf(Insert(w, id, e)) == Note(BooksOf(w), id, EntryOf(e))
  {
    hide EntryOf;
  }

  lemma ArrivalBooked(f: Flat, e: MemEvent, putId: nat)
    requires FlatReceive(f, e, putId).Some?
    ensures BooksOf(FlatReceive(f, e, putId).value.waiting) == Booked(BooksOf(f.waiting), e, putId)
  {
    hide BooksOf, Insert, Note, Decode;
    var t, w := Tag(e).value, f.waiting;
    match e.cmd {
      case PutM => InsertNotes(w, e.id, t.(flags := t.flags + {NoResponse}));
      case GetS | GetX | GetSX | Write => InsertNotes(w, e.id, t);
      case FlushLine | FlushLineInv =>
        var v := w;
        if |e.payload| != 0 {
          InsertNotes(w, putId, PutFor(t, putId));
          v := Insert(w, putId, PutFor(t, putId));
        }
        InsertNotes(v, e.id, t.(cmd := FlushLine));
      case _ =>
    }
  }

  lemma RemoveNotes(w: map<nat, MemEvent>, id: nat)
    ensures BooksOf(w - {id}) == BooksOf(w) - {id}
  {
    hide EntryOf;
  }

  lemma StepBooked(f: Flat, e: CtlEvent)
    requires FlatStep(f, e).Some?
    ensures var books, g := BooksOf(f.waiting), FlatStep(f, e).value.0;
            match e
            case Arrive(ev, putId) => BooksOf(g.waiting) == Booked(books, ev, putId) && StepLog(f, e) == []
            case Complete(id, _, _) =>
              && BooksOf(g.waiting) == books - {id}
              && StepLog(f, e) == if id in books && books[id].Stores? then [books[id].written] else []
  {
    hide Booked, FlatReceive;
    match e {
      case Arrive(ev, putId) => ArrivalBooked(f, ev, putId);
      case Complete(id, _, _) => RemoveNotes(f.waiting, id);
    }
  }

  /** What the flat memory writes and holds is what the arrivals asked for. */
  lemma {:induction false} RunBooked(f: Flat, es: seq<CtlEvent>)
    requires RunFlat(f, es).Some?
    ensures WriteLog(f, es) == StoresIn(BooksOf(f.waiting), es)
    ensures BooksOf(RunFlat(f, es).value.0.waiting) == BooksAfter(BooksOf(f.waiting), es)
    decreases |es|
  {
    hide FlatStep, BooksOf, Booked, StepLog;
    if es != [] {
      StepBooked(f, es[0]);
      var g := FlatStep(f, es[0]).value.0;
      RunBooked(g, es[1..]);
      assert [] + WriteLog(g, es[1..]) == WriteLog(g, es[1..]);
    }
  }

  /** At any moment of any run, every owned byte of the backing store is that of the latest
      completed store the arrivals asked for, found at its local address. */
  lemma StoreHoldsLatest(c: Ctl, es: seq<CtlEvent>, g: nat)
    requires CtlInv(c) && LegalCtlRun(c, es) && c.region.Owns(g)
    ensures RunCtl(c, es).Some? && ToLocal(c.region, g) < |RunCtl(c, es).value.0.backing|
    ensures g in Abs(c).mem
    ensures RunCtl(c, es).value.0.backing[ToLocal(c.region, g)]
         == LatestByte(Abs(c).mem, StoresIn(BooksOf(Abs(c).waiting), es), g)
  {
    hide AllHeld, AbsWaiting, RunFlat, WriteLog, RunCtl, LatestByte, ToLocal, BooksOf, StoresIn, BooksAfter;
    CtlRefinesFlat(c, es);
    FlatMemIsLatest(Abs(c), es);
    RunBooked(Abs(c), es);
    var s := RunCtl(c, es).value.0;
    BelowExtent(c.region, g);
    assert g in FlatMem(s.region, s.backing);
  }

  /** The reply to the read e: to the side it came from, with the given flags, the command of
      its kind, its own addresses and size, and for its i-th byte the latest one at its address,
      or if it is cacheable, in its line. */
  predicate Returns(reply: Reply, e: MemEvent, flags: set<Flag>, i: nat, init: map<nat, byte>, log: seq<Written>) {
    var a := (if Noncacheable in e.flags then e.addr else e.baseAddr) + i;
    && (if FromPim in e.flags then reply.ToPim? else reply.ToLink?)
    && reply.event.cmd == (if Noncacheable in e.flags && e.cmd != GetX then GetSResp else GetXResp)
    && reply.event.id == e.id && reply.event.flags == flags
    && reply.event.addr == e.addr && reply.event.baseAddr == e.baseAddr
    && |reply.event.payload| == reply.event.size == e.size && i < e.size && a in init
    && reply.event.payload[i] == LatestByte(init, log, a)
  }

  /** A plain read that is held is answered with the flat memory's bytes. */
  lemma ReadAnswer(c: Ctl, id: nat, flags: set<Flag>)
    requires CtlInv(c) && id in Abs(c).waiting && EntryOf(Abs(c).waiting[id]).Loads?
    requires NoResponse !in Abs(c).waiting[id].flags
    ensures Respond(c, id, flags, []).Some?
    ensures var e := Abs(c).waiting[id];
            && Covers(Abs(c).mem, e.Access(), e.size)
            && Respond(c, id, flags, []).value.1.reply ==
                 MakeReply(e, flags, Slice(Abs(c).mem, e.Access(), e.size), e.addr, e.baseAddr)
  {
    assert id in c.outstanding;
    hide AllHeld, AbsWaiting, ToLocal, ToGlobal, FlatMem, Respond, Slice, Covers, MakeReply;
    RespondSimulated(c, id, flags, []);
    AbsRemove(c.region, c.outstanding, id);
  }

  /** A read answered at any moment returns exactly the bytes of the latest completed stores:
      all in terms of what arrived, the read, the stores and their order of completion. */
  lemma ReadReturnsLatest(c: Ctl, es: seq<CtlEvent>, id: nat, flags: set<Flag>, i: nat)
    requires CtlInv(c) && LegalCtlRun(c, es)
    requires var books := BooksAfter(BooksOf(Abs(c).waiting), es);
             && id in books && books[id].Loads?
             && NoResponse !in books[id].event.flags && i < books[id].event.size
    ensures RunCtl(c, es).Some? && CtlInv(RunCtl(c, es).value.0)
    ensures Respond(RunCtl(c, es).value.0, id, flags, []).Some?
    ensures Returns(Respond(RunCtl(c, es).value.0, id, flags, []).value.1.reply,
                    BooksAfter(BooksOf(Abs(c).waiting), es)[id].event, flags, i,
                    Abs(c).mem, StoresIn(BooksOf(Abs(c).waiting), es))
  {
    hide CtlInv, Abs, RunFlat, WriteLog, RunCtl, LatestByte, Respond, StoresIn, BooksAfter, LegalCtlRun;
    InvGivesValid(c);
    CtlRefinesFlat(c, es);
    FlatMemIsLatest(Abs(c), es);
    RunBooked(Abs(c), es);
    var s := RunCtl(c, es).value.0;
    InvGivesValid(s);
    var e := Abs(s).waiting[id];
    hide SameReactions;
    ReadAnswer(s, id, flags);
    assert e.Access() <= e.Access() + i < e.Access() + e.size;
    assert e.Access() + i in Abs(s).mem;
  }
}
