/** The two halves meet: a DRAM request of the device, sent through the controller, is
    answered exactly as the flat memory of DmaSpec answers it. */
module Bridge {
  import opened PimDef
  import opened Transfer
  import D = DmaSpec
  import opened CtlSpec
  import opened CtlProof

  /** The event the backend makes of a request: noncacheable, its own address as base, and
      as long as its payload. */
  function DeviceEvent(id: nat, r: D.Request): MemEvent {
    MemEvent(id, if r.isWrite then Write else GetS, r.addr, r.addr, true, {Noncacheable, FromPim},
             |r.payload|, r.payload)
  }

  /** The flat image of the controller agrees with the device's view of DRAM. */
  predicate Mirrors(m: map<nat, byte>, dram: seq<byte>) {
    forall g :: g in m ==> g < |dram| && m[g] == dram[g]
  }

  /** Sent: the controller accepts it, and holds it at its own address. */
  lemma RequestAccepted(c: Ctl, id: nat, r: D.Request, putId: nat)
    requires CtlInv(c) && c.region.OwnsRange(r.addr, |r.payload|) && id !in c.outstanding
    ensures Receive(c, DeviceEvent(id, r), putId).Some?
    ensures var s := Receive(c, DeviceEvent(id, r), putId).value;
            CtlInv(s) && Abs(s) == Abs(c).(waiting := Abs(c).waiting[id := DeviceEvent(id, r)])
  {
    ReceiveSimulated(c, DeviceEvent(id, r), putId);
  }

  /** A write's answer: DRAM as the device sees it takes the payload, the device is told. */
  lemma WriteAnswered(c: Ctl, id: nat, r: D.Request, flags: set<Flag>, dram: seq<byte>)
    requires CtlInv(c) && id in Abs(c).waiting && Abs(c).waiting[id] == DeviceEvent(id, r) && r.isWrite
    requires Mirrors(Abs(c).mem, dram) && r.addr + |r.payload| <= |dram|
    ensures Respond(c, id, flags, []).Some? && CtlInv(Respond(c, id, flags, []).value.0)
    ensures var (s, x) := Respond(c, id, flags, []).value;
            Mirrors(Abs(s).mem, Splice(dram, r.addr, r.payload))
            && Abs(s).waiting == Abs(c).waiting - {id} && x.device == NoCall
            && x.reply.ToPim? && x.reply.event.id == id && x.reply.event.payload == r.payload
  {
    hide FlatMem, Respond, Held;
    RespondSimulated(c, id, flags, []);
  }

  /** A read's answer: the device gets the bytes DRAM holds at that moment. */
  lemma ReadAnswered(c: Ctl, id: nat, r: D.Request, flags: set<Flag>, dram: seq<byte>)
    requires CtlInv(c) && id in Abs(c).waiting && Abs(c).waiting[id] == DeviceEvent(id, r) && !r.isWrite
    requires Mirrors(Abs(c).mem, dram) && r.addr + |r.payload| <= |dram|
    ensures Respond(c, id, flags, []).Some? && CtlInv(Respond(c, id, flags, []).value.0)
    ensures var (s, x) := Respond(c, id, flags, []).value;
            && Abs(s) == Abs(c).(waiting := Abs(c).waiting - {id})
            && x.reply.ToPim? && x.reply.event.id == id
            && x.reply.event.payload == dram[r.addr..r.addr + |r.payload|]
  {
    hide FlatMem, Respond, Held, Slice;
    RespondSimulated(c, id, flags, []);
    var m := Abs(c).mem;
    SliceMirrors(m, dram, r.addr, |r.payload|);
  }

  lemma SliceMirrors(m: map<nat, byte>, dram: seq<byte>, a: nat, n: nat)
    requires Mirrors(m, dram) && a + n <= |dram| && Covers(m, a, n)
    ensures Slice(m, a, n) == dram[a..a + n]
  {
    forall i | 0 <= i < n
      ensures Slice(m, a, n)[i] == dram[a..a + n][i]
    {
      assert a + i in m;
    }
  }
}
