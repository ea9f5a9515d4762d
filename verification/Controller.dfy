/** The memory controller as an object: it updates its event map, its region and its
    backing store, and is proved to step as CtlSpec says. */
module Controller {
  import opened PimDef
  import opened Transfer
  import opened Decoder
  import opened Quotients
  import opened Region
  import opened CtlSpec

  class MemController {
    var region: Region
    var outstanding: map<nat, MemEvent>
    const backing: array<byte>
    const decoder: PimDecoder

    ghost predicate Valid()
      reads this, decoder
    {
      region.Valid() && decoder.Valid()
    }

    ghost function Value(): Ctl
      reads this, backing
    {
      Ctl(region, outstanding, backing[..])
    }

    constructor (region: Region, memSize: nat)
      requires region.Valid() && HoldsAChunk(region, memSize)
      ensures Valid() && fresh(backing) && fresh(decoder)
      ensures this.region == Adjust(region, memSize) && outstanding == map[] && backing.Length == memSize
    {
      this.region := region;
      outstanding := map[];
      backing := new byte[memSize](_ => 0);
      decoder := new PimDecoder();
      new;
      AdjustRegionToMemSize(memSize);
    }

    /** Clamp the region; runs at construction and again in every initialisation phase. */
    method AdjustRegionToMemSize(memSize: nat)
      requires Valid() && HoldsAChunk(region, memSize)
      modifies this`region
      ensures Valid() && region == Adjust(old(region), memSize)
    {
      AdjustIdempotent(region, memSize);
      var regSize := region.end - region.start;
      if regSize != REGION_MAX {
        regSize := regSize + 1;
      }
      if region.step != 0 {
        var steps := regSize / region.step;
        regSize := steps * region.size;
        if regSize > memSize {
          steps := memSize / region.size;
          regSize := steps * region.step;
          Euclid(memSize, region.size);
          Mono(1, steps, region.step);
          region := region.(end := region.start + regSize - 1);
        }
      } else if regSize > memSize {
        region := region.(end := region.start + memSize - 1);
      }
    }

    method Keep(id: nat, e: MemEvent)
      modifies this`outstanding
      ensures outstanding == Insert(old(outstanding), id, e)
    {
      if id !in outstanding {
        outstanding := outstanding[id := e];
      }
    }

    /** An event arrives from the link, or from the device (FromPim set). */
    method HandleEvent(event: MemEvent, putId: nat) returns (ok: bool)
      requires Valid()
      modifies this`outstanding
      ensures ok == Receive(old(Value()), event, putId).Some?
      ensures ok ==> Value() == Receive(old(Value()), event, putId).value
    {
      hide ToLocal, Decode;
      var ev := event;
      if FromPim !in ev.flags {
        var info := decoder.DecodeAddr(ev.addr);
        if info.isIO {
          ev := ev.(flags := ev.flags + {Mmio});
          if Noncacheable !in ev.flags {
            return false;
          }
        }
      } else if !region.Owns(ev.baseAddr) {
        return false;
      }
      if ev.addr < region.start || ev.baseAddr < region.start {
        return false;
      }
      if ev.global {
        ev := ev.(addr := ToLocal(region, ev.addr), baseAddr := ToLocal(region, ev.baseAddr));
      }
      ok := true;
      match ev.cmd {
        case PutM =>
          Keep(ev.id, ev.(flags := ev.flags + {NoResponse}));
        case GetS | GetX | GetSX | Write =>
          Keep(ev.id, ev);
        case FlushLine | FlushLineInv =>
          if |ev.payload| != 0 {
            Keep(putId, PutFor(ev, putId));
          }
          Keep(ev.id, ev.(cmd := FlushLine));
        case PutS | PutE =>
        case _ =>
          ok := false;
      }
    }

    method WriteData(e: MemEvent) returns (ok: bool)
      requires e.Writes()
      modifies backing
      ensures ok == InStore(old(backing[..]), e)
      ensures ok ==> backing[..] == Splice(old(backing[..]), e.Access(), e.payload)
      ensures !ok ==> backing[..] == old(backing[..])
    {
      var a := e.Access();
      if a + e.size > backing.Length || |e.payload| != e.size {
        return false;
      }
      for i := 0 to e.size
        invariant backing[..] == Splice(old(backing[..]), a, e.payload[..i])
      {
        backing[a + i] := e.payload[i];
      }
      assert e.payload[..e.size] == e.payload;
      ok := true;
    }

    method ReadData(e: MemEvent) returns (ok: bool, d: seq<byte>)
      requires e.Reads()
      ensures ok == InStore(backing[..], e)
      ensures ok ==> d == backing[..][e.Access()..e.Access() + e.size]
    {
      var a := e.Access();
      d := seq(e.size, _ => 0);
      ok := a + e.size <= backing.Length;
      if ok {
        for i := 0 to e.size
          invariant |d| == e.size && d[..i] == backing[a..a + i]
        {
          d := d[i := backing[a + i]];
          assert d[..i + 1] == d[..i] + [backing[a + i]];
        }
        assert d[..e.size] == d;
      }
    }

    /** The backend has answered an event. */
    method HandleMemResponse(id: nat, flags: set<Flag>, deviceData: seq<byte>) returns (ok: bool, reaction: Reaction)
      requires Valid()
      modifies this`outstanding, backing
      ensures ok == Respond(old(Value()), id, flags, deviceData).Some?
      ensures ok ==> (Value(), reaction) == Respond(old(Value()), id, flags, deviceData).value
    {
      hide Splice, ToGlobal;
      ok, reaction := true, Reaction(NoCall, NoReply);
      if id !in outstanding {
        return false, reaction;
      }
      var ev := outstanding[id];
      outstanding := outstanding - {id};
      var g := Globalised(region, ev);
      var device := NoCall;
      var data: seq<byte> := [];
      if ev.Writes() {
        if Mmio in ev.flags {
          ev := g.(flags := g.flags - {Mmio});
          g := Globalised(region, ev);
          device := DeviceWrite(ev);
        } else {
          ok := WriteData(ev);
        }
      }
      if ev.Reads() && NoResponse !in ev.flags {
        if Mmio in ev.flags {
          device := DeviceRead(g.(cmd := ResponseTo(ev.cmd), flags := g.flags - {Mmio}));
          data := deviceData;
        } else {
          ok, data := ReadData(ev);
        }
      }
      var reply := MakeReply(ev, flags, data, g.addr, g.baseAddr);
      reaction := Reaction(device, reply);
    }
  }
}
