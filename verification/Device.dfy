/** The device in the program's own form: objects whose methods update their fields.
    Every method is proved to make exactly the step that DmaSpec defines; ok == false is
    where the program stops on a failed assertion or a fatal error. */
module Device {
  import opened PimDef
  import opened Bytes
  import opened Transfer
  import opened Decoder
  import opened DmaSpec
  import DmaRun

  /** The bytes of one word, gathered one at a time. */
  method WordBytes(d: seq<byte>, i: nat) returns (p: seq<byte>)
    requires i + 8 <= |d|
    ensures p == d[i..i + 8]
  {
    p := [0, 0, 0, 0, 0, 0, 0, 0];
    for j := 0 to 8
      invariant |p| == 8 && p[..j] == d[i..i + j]
    {
      p := p[j := d[i + j]];
      assert p[..j + 1] == p[..j] + [d[i + j]];
    }
    assert p == p[..8];
  }

  class FuncState {
    var fstate: FState
    var counter: nat
    const params: array<word>

    ghost predicate Valid() {
      params.Length == NUM_FUNC_PARAMS
    }

    ghost function Value(): Slot
      requires Valid()
      reads this, params
    {
      Slot(fstate, counter, params[..])
    }

    constructor ()
      ensures Valid() && fresh(params) && Value() == DmaRun.InitialSlot()
    {
      fstate, counter := INVALID, 0;
      params := new word[NUM_FUNC_PARAMS](_ => 0);
    }

    method Command(d: word) returns (ok: bool, started: bool)
      requires Valid()
      modifies this, params
      ensures ok == WriteFsm(old(Value()), d).Some?
      ensures ok ==> (Value(), started) == WriteFsm(old(Value()), d).value
    {
      ok, started := true, false;
      match fstate {
        case INVALID | DONE =>
          if d % TWO32 == INIT {
            fstate, counter := INITIALIZING, 0;
          } else {
            ok := false;
          }
        case INITIALIZING =>
          if counter >= NUM_FUNC_PARAMS {
            return false, false;
          }
          params[counter] := d;
          counter := counter + 1;
          if counter == NUM_FUNC_PARAMS {
            fstate := READY;
          }
        case READY =>
          if d % TWO32 == RUN {
            fstate, counter, started := RUNNING, 0, true;
          } else {
            ok := false;
          }
        case RUNNING =>
          fstate, counter := FState.DONE, 0;
      }
    }

    method Status() returns (d: word)
      requires Valid()
      ensures d == ReadFsm(Value())
    {
      d := match fstate
        case INVALID => 0
        case INITIALIZING => 1
        case READY => 2
        case RUNNING => 3
        case DONE => 4;
    }
  }

  /** The controller side the device talks to, as the flat memory it amounts to: requests
      are held until the environment has them answered. */
  class Memory {
    var flight: map<nat, Request>
    var nextId: nat
    const dram: array<byte>

    constructor (dram: array<byte>)
      ensures this.dram == dram && flight == map[] && nextId == 0
    {
      this.dram := dram;
      flight, nextId := map[], 0;
    }

    method StoreBytes(a: nat, d: seq<byte>)
      requires a + |d| <= dram.Length
      modifies dram
      ensures dram[..] == Splice(old(dram[..]), a, d)
    {
      for i := 0 to |d|
        invariant dram[..] == Splice(old(dram[..]), a, d[..i])
      {
        dram[a + i] := d[i];
      }
      assert d[..|d|] == d;
    }
  }

  class MemCopy {
    var dma: DmaState
    var totalWords: nat
    var wordCounter: nat
    var src: nat
    var dst: nat
    var srcIsSram: bool
    var dstIsSram: bool

    ghost function Value(): Fsm
      reads this
    {
      Fsm(dma, totalWords, wordCounter, src, dst, srcIsSram, dstIsSram, Keep)
    }

    constructor ()
      ensures Value() == DmaRun.IdleFsm(Keep)
    {
      dma, totalWords, wordCounter, src, dst := Idle, 0, 0, 0, 0;
      srcIsSram, dstIsSram := false, false;
    }

    method Start(params: array<word>, decoder: PimDecoder) returns (ok: bool)
      requires params.Length == NUM_FUNC_PARAMS && decoder.Valid()
      modifies this
      ensures ok == StartCopy(old(Value()), params[..]).Some?
      ensures ok ==> Value() == StartCopy(old(Value()), params[..]).value
    {
      var numBytes := params[2];
      if numBytes == 0 {
        return true;
      }
      if numBytes % 8 != 0 {
        return false;
      }
      dst, src := params[0], params[1];
      totalWords, wordCounter := numBytes / 8, numBytes / 8;
      dma := Read;
      var dstInf := decoder.DecodeAddr(dst);
      var srcInf := decoder.DecodeAddr(src);
      if dstInf.isIO && dstInf.kind != SRAM {
        return false;
      }
      if srcInf.isIO && srcInf.kind != SRAM {
        return false;
      }
      dstIsSram := dstInf.isIO && dstInf.kind == SRAM;
      srcIsSram := srcInf.isIO && srcInf.kind == SRAM;
      ok := true;
    }

    /** The read half of a chunk: SRAM answers at once, DRAM when it likes. */
    method FetchChunk(be: PimBackend, bytes: nat) returns (ok: bool)
      requires be.Valid() && |be.pim.buffer| == bytes
      modifies `dma, `src, be.pim`buffer, be`pending, be.memory`flight, be.memory`nextId
      ensures srcIsSram ==>
        var r := SramRead(old(be.State()).mem, old(src), bytes);
        ok == r.Some? && (ok ==> dma == Write && be.State() == old(be.State()).(buffer := r.value))
      ensures !srcIsSram ==>
        var r := Issue(old(be.State()), old(src), false, ReadDone(F1, Write));
        ok == r.Some? && (ok ==> dma == Waiting && be.State() == r.value)
      ensures ok ==> src == old(src) + bytes
    {
      hide SramRead, Issue;
      if srcIsSram {
        var d;
        ok, d := be.pim.ReadSram(src, bytes, be.pim.buffer);
        if ok {
          be.pim.buffer := d;
          dma := Write;
        }
      } else {
        ok := be.IssueDRAMRequest(src, false, ReadDone(F1, Write));
        dma := Waiting;
      }
      src := src + bytes;
    }

    /** The write half, after which the machine goes to next. */
    method FlushChunk(be: PimBackend, bytes: nat, next: DmaState) returns (ok: bool)
      requires be.Valid()
      modifies `dma, `dst, be.pim.sram, be`pending, be.memory`flight, be.memory`nextId
      ensures dstIsSram ==>
        var r := SramWrite(old(be.State()).mem, old(dst), old(be.State()).buffer);
        ok == r.Some? && (ok ==> dma == next && be.State() == old(be.State()).(mem := r.value))
      ensures !dstIsSram ==>
        var r := Issue(old(be.State()), old(dst), true, WriteDone(F1, next));
        ok == r.Some? && (ok ==> dma == Waiting && be.State() == r.value)
      ensures ok ==> dst == old(dst) + bytes
    {
      hide SramWrite, Issue;
      if dstIsSram {
        ok := be.pim.WriteSram(dst, be.pim.buffer);
        dma := next;
      } else {
        ok := be.IssueDRAMRequest(dst, true, WriteDone(F1, next));
        dma := Waiting;
      }
      dst := dst + bytes;
    }

    method Clock(be: PimBackend) returns (ok: bool, done: bool)
      requires be.Valid()
      modifies this, be.pim`buffer, be.pim.sram, be`pending, be.memory`flight, be.memory`nextId
      ensures ok == ClockFsm(F1, old(Value()), old(be.State())).Some?
      ensures ok ==> ClockFsm(F1, old(Value()), old(be.State())).value == (be.State(), Value(), done)
    {
      hide SramRead, SramWrite, Issue, Resize;
      ok, done := true, false;
      var words := if wordCounter >= CHUNK_WORDS then CHUNK_WORDS else wordCounter;
      var bytes := 8 * words;
      be.pim.buffer := Resize(be.pim.buffer, bytes);
      match dma {
        case Read =>
          ok := FetchChunk(be, bytes);
        case Write =>
          wordCounter := wordCounter - words;
          ok := FlushChunk(be, bytes, if wordCounter > 0 then Read else Done);
        case Done =>
          dma := Idle;
          done := true;
        case _ =>
      }
    }

    /** The read callback: the response must be as long as the buffer is now. */
    method ReadCompleted(pim: Tclpim, next: DmaState, d: seq<byte>) returns (ok: bool)
      modifies this, pim`buffer
      ensures ok == Complete(ReadDone(F1, next), old(Value()), old(pim.buffer), d).Some?
      ensures ok ==> Complete(ReadDone(F1, next), old(Value()), old(pim.buffer), d).value == (Value(), pim.buffer)
    {
      if |pim.buffer| != |d| {
        return false;
      }
      for i := 0 to |d|
        invariant |pim.buffer| == |d| && pim.buffer[..i] == d[..i]
        invariant Value() == old(Value())
      {
        pim.buffer := pim.buffer[i := d[i]];
        assert pim.buffer[..i + 1] == pim.buffer[..i] + [d[i]];
      }
      dma := next;
      assert pim.buffer == pim.buffer[..|d|] == d;
      ok := true;
    }
  }

  class MulVecByScalar {
    var dma: DmaState
    var totalWords: nat
    var wordCounter: nat
    var src: nat
    var dst: nat
    var scalar: word

    ghost function Value(): Fsm
      reads this
    {
      Fsm(dma, totalWords, wordCounter, src, dst, false, false, Times(scalar))
    }

    constructor ()
      ensures Value() == DmaRun.IdleFsm(Times(0))
    {
      dma, totalWords, wordCounter, src, dst, scalar := Idle, 0, 0, 0, 0, 0;
    }

    method Start(params: array<word>) returns (ok: bool)
      requires params.Length == NUM_FUNC_PARAMS
      modifies this
      ensures ok == StartMul(old(Value()), params[..]).Some?
      ensures ok ==> Value() == StartMul(old(Value()), params[..]).value
    {
      var numBytes := params[3];
      if numBytes == 0 {
        return true;
      }
      if numBytes % 8 != 0 {
        return false;
      }
      dst, src, scalar := params[0], params[1], params[2];
      totalWords, wordCounter := numBytes / 8, numBytes / 8;
      dma := Read;
      ok := true;
    }

    method Clock(be: PimBackend) returns (ok: bool, done: bool)
      requires be.Valid()
      modifies this, be.pim`buffer, be`pending, be.memory`flight, be.memory`nextId
      ensures ok == ClockFsm(U5, old(Value()), old(be.State())).Some?
      ensures ok ==> ClockFsm(U5, old(Value()), old(be.State())).value == (be.State(), Value(), done)
    {
      hide Issue, Resize;
      ok, done := true, false;
      var words := if wordCounter >= CHUNK_WORDS then CHUNK_WORDS else wordCounter;
      var bytes := 8 * words;
      be.pim.buffer := Resize(be.pim.buffer, bytes);
      if dma == Read {
        ok := be.IssueDRAMRequest(src, false, ReadDone(U5, Write));
        if !ok {
          return;
        }
        dma := Waiting;
        src := src + bytes;
      } else if dma == Write {
        wordCounter := wordCounter - words;
        if wordCounter > 0 {
          ok := be.IssueDRAMRequest(dst, true, WriteDone(U5, Read));
        } else {
          ok := be.IssueDRAMRequest(dst, true, WriteDone(U5, Done));
        }
        if !ok {
          return;
        }
        dst := dst + bytes;
        dma := Waiting;
      } else if dma == Done {
        dma := Idle;
        done := true;
      }
    }

    /** Put one word's bytes into the buffer, one at a time. */
    method PutWord(pim: Tclpim, i: nat, p: seq<byte>)
      requires |p| == 8 && i + 8 <= |pim.buffer|
      modifies pim`buffer
      ensures pim.buffer == Splice(old(pim.buffer), i, p)
    {
      for j := 0 to 8
        invariant pim.buffer == Splice(old(pim.buffer), i, p[..j])
      {
        pim.buffer := pim.buffer[i + j := p[j]];
      }
      assert p[..8] == p;
    }

    /** The read callback: every word of the response is taken apart, multiplied and put
        back together, byte by byte, into the buffer. */
    method ReadCompleted(pim: Tclpim, next: DmaState, d: seq<byte>) returns (ok: bool)
      modifies this, pim`buffer
      ensures ok == Complete(ReadDone(U5, next), old(Value()), old(pim.buffer), d).Some?
      ensures ok ==> Complete(ReadDone(U5, next), old(Value()), old(pim.buffer), d).value == (Value(), pim.buffer)
    {
      if |pim.buffer| != |d| || |d| % 8 != 0 {
        return false;
      }
      assert Scale(scalar, d[..0]) == [];
      hide Scale;
      var i := 0;
      while i < |d|
        invariant i <= |d| == |pim.buffer| && i % 8 == 0
        invariant pim.buffer[..i] == Scale(scalar, d[..i]) && Value() == old(Value())
      {
        var p := WordBytes(d, i);
        p := ToBytes(MulWord(scalar, WordOf(p)), 8);
        ScaleOneMore(scalar, d, i);
        ghost var before := pim.buffer;
        PutWord(pim, i, p);
        assert pim.buffer[..i + 8] == before[..i] + p;
        i := i + 8;
      }
      assert pim.buffer[..|d|] == pim.buffer && d[..|d|] == d;
      dma := next;
      ok := true;
    }
  }

  class Tclpim {
    const sram: array<byte>
    var buffer: seq<byte>
    const decoder: PimDecoder
    const f1: FuncState
    const u5: FuncState
    const copy: MemCopy
    const mul: MulVecByScalar

    ghost predicate Valid()
      reads decoder
    {
      sram.Length == SRAM_SIZE && decoder.Valid() && f1.Valid() && u5.Valid()
      && f1 != u5 && f1.params != u5.params
    }

    /** The scratchpad starts out zeroed, except that its first word is the device's id. */
    constructor (id: word)
      ensures Valid() && fresh(sram) && fresh(decoder) && fresh(f1) && fresh(f1.params) && fresh(u5)
      ensures fresh(u5.params) && fresh(copy) && fresh(mul)
      ensures f1.Value() == u5.Value() == DmaRun.InitialSlot()
      ensures copy.Value() == DmaRun.IdleFsm(Keep) && mul.Value() == DmaRun.IdleFsm(Times(0))
      ensures WordAt(sram[..], 0) == id && forall i :: 8 <= i < SRAM_SIZE ==> sram[i] == 0
    {
      var image := ToBytes(id, 8);
      sram := new byte[SRAM_SIZE](i => if 0 <= i < 8 then image[i] else 0);
      buffer := [];
      decoder := new PimDecoder();
      f1 := new FuncState();
      u5 := new FuncState();
      copy := new MemCopy();
      mul := new MulVecByScalar();
      new;
      assert sram[..][0..8] == image;
      WordCodec(id, image);
    }

    /** The byte an address selects: word index and byte within the word. */
    function SramIndex(a: nat): (k: nat)
      ensures k == a % SRAM_SIZE
    {
      8 * (a % SRAM_SIZE / 8) + a % 8
    }

    method ReadSram(a: nat, n: nat, payload: seq<byte>) returns (ok: bool, d: seq<byte>)
      requires Valid() && |payload| == n
      ensures forall m: Mem :: m.sram == sram[..] ==>
                ok == SramRead(m, a, n).Some? && (ok ==> d == SramRead(m, a, n).value)
    {
      hide Decode;
      d := payload;
      var info := decoder.DecodeAddr(a);
      var k := SramIndex(a);
      if info.kind != SRAM || k + n > SRAM_SIZE {
        return false, d;
      }
      for i := 0 to n
        invariant |d| == n && d[..i] == sram[k..k + i]
      {
        d := d[i := sram[k + i]];
        assert d[..i + 1] == d[..i] + [sram[k + i]];
      }
      assert d == d[..n];
      ok := true;
    }

    method WriteSram(a: nat, d: seq<byte>) returns (ok: bool)
      requires Valid()
      modifies sram
      ensures forall m: Mem :: m.sram == old(sram[..]) ==>
                ok == SramWrite(m, a, d).Some? && (ok ==> SramWrite(m, a, d).value == m.(sram := sram[..]))
      ensures !ok ==> sram[..] == old(sram[..])
    {
      hide Decode;
      var info := decoder.DecodeAddr(a);
      var k := SramIndex(a);
      if info.kind != SRAM || k + |d| > SRAM_SIZE {
        return false;
      }
      for i := 0 to |d|
        invariant sram[..] == Splice(old(sram[..]), k, d[..i])
      {
        sram[k + i] := d[i];
      }
      assert d[..|d|] == d;
      ok := true;
    }

    /** The slot an access names; the others were never registered. */
    method DecodeFuncNum(a: nat, n: nat) returns (r: Option<Fn>)
      ensures r == SlotAt(a, n)
    {
      var k := a / 8 % 16;
      if a % 8 != 0 || n != 8 {
        return None;
      }
      r := if k == 1 then Some(F1) else if k == 13 then Some(U5) else None;
    }

    /** A write to a slot, which may start its engine. */
    method WriteSlot(fn: Fn, d: word) returns (ok: bool)
      requires Valid()
      modifies f1, f1.params, u5, u5.params, copy, mul
      ensures ok == SlotStep(fn, old(SlotOf(fn)), old(FsmOf(fn)), d).Some?
      ensures ok ==> (SlotOf(fn), FsmOf(fn)) == SlotStep(fn, old(SlotOf(fn)), old(FsmOf(fn)), d).value
      ensures SlotOf(Other(fn)) == old(SlotOf(Other(fn))) && FsmOf(Other(fn)) == old(FsmOf(Other(fn)))
    {
      var slot := if fn == F1 then f1 else u5;
      var started;
      ok, started := slot.Command(d);
      if ok && started {
        if fn == F1 {
          ok := copy.Start(slot.params, decoder);
        } else {
          ok := mul.Start(slot.params);
        }
      }
    }

    ghost function SlotOf(fn: Fn): Slot
      requires Valid()
      reads decoder, f1, f1.params, u5, u5.params
    {
      if fn == F1 then f1.Value() else u5.Value()
    }

    ghost function FsmOf(fn: Fn): Fsm
      reads copy, mul
    {
      if fn == F1 then copy.Value() else mul.Value()
    }

    /** What a command does to one slot and its engine. */
    static ghost function SlotStep(fn: Fn, s: Slot, f: Fsm, d: word): Option<(Slot, Fsm)> {
      var (t, started) :- WriteFsm(s, d);
      if !started then Some((t, f)) else
      var g :- DmaSpec.Start(fn, f, t.params);
      Some((t, g))
    }
  }

  class PimBackend {
    const pim: Tclpim
    const memory: Memory
    var pending: map<nat, Completion>

    ghost predicate Valid()
      reads pim.decoder
    {
      pim.Valid() && pim.sram != memory.dram
    }

    ghost function State(): Core
      reads this, pim, pim.sram, memory, memory.dram
    {
      Core(pim.buffer, Mem(memory.dram[..], pim.sram[..]), pending, memory.flight, memory.nextId)
    }

    method IssueDRAMRequest(a: nat, isWrite: bool, done: Completion) returns (ok: bool)
      modifies this`pending, memory`flight, memory`nextId
      ensures ok == Issue(old(State()), a, isWrite, done).Some?
      ensures ok ==> State() == Issue(old(State()), a, isWrite, done).value
      ensures !ok ==> State() == old(State())
    {
      if a >= memory.dram.Length {
        return false;
      }
      var id := memory.nextId;
      memory.flight := memory.flight[id := Request(a, isWrite, pim.buffer)];
      memory.nextId := id + 1;
      pending := pending[id := done];
      ok := true;
    }

    constructor (pim: Tclpim, memory: Memory)
      ensures this.pim == pim && this.memory == memory && pending == map[]
    {
      this.pim, this.memory, this.pending := pim, memory, map[];
    }

    /** The whole device as DmaSpec sees it. */
    ghost function Snapshot(): Pim
      requires Valid()
      reads this, memory, memory.dram, pim, pim.sram, pim.decoder
      reads pim.f1, pim.f1.params, pim.u5, pim.u5.params, pim.copy, pim.mul
    {
      Pim(pim.f1.Value(), pim.u5.Value(), pim.copy.Value(), pim.mul.Value(), State())
    }

    method ClockSlot(fn: Fn) returns (ok: bool, done: bool)
      requires Valid()
      modifies pim.copy, pim.mul, pim.f1, pim.f1.params, pim.u5, pim.u5.params
      modifies pim`buffer, pim.sram, this`pending, memory`flight, memory`nextId
      ensures ok == DmaSpec.ClockSlot(old(Snapshot()), fn).Some?
      ensures ok ==> (Snapshot(), done) == DmaSpec.ClockSlot(old(Snapshot()), fn).value
    {
      var slot := if fn == F1 then pim.f1 else pim.u5;
      if slot.fstate != RUNNING {
        return true, false;
      }
      if fn == F1 {
        ok, done := pim.copy.Clock(this);
      } else {
        ok, done := pim.mul.Clock(this);
      }
      if ok && done {
        var started;
        ok, started := slot.Command(FINISH);
      }
    }

    /** The device clock: a slot that finishes ends the cycle. */
    method Clock() returns (ok: bool)
      requires Valid()
      modifies pim.copy, pim.mul, pim.f1, pim.f1.params, pim.u5, pim.u5.params
      modifies pim`buffer, pim.sram, this`pending, memory`flight, memory`nextId
      ensures ok == Step(old(Snapshot()), Tick).Some?
      ensures ok ==> Snapshot() == Step(old(Snapshot()), Tick).value
    {
      var done;
      ok, done := ClockSlot(F1);
      if ok && !done {
        ok, done := ClockSlot(U5);
      }
    }

    /** A response reaches the device: find the callback, run it, forget it. */
    method HandlePIMCompletion(id: nat, d: seq<byte>) returns (ok: bool)
      requires Valid()
      modifies pim.copy, pim.mul, pim`buffer, this`pending
      ensures ok == (id in old(pending)
                     && Complete(old(pending[id]), old(pim.FsmOf(pending[id].fn)), old(pim.buffer), d).Some?)
      ensures ok ==>
        && pending == old(pending) - {id}
        && (pim.FsmOf(old(pending[id].fn)), pim.buffer)
           == Complete(old(pending[id]), old(pim.FsmOf(pending[id].fn)), old(pim.buffer), d).value
        && pim.FsmOf(Other(old(pending[id].fn))) == old(pim.FsmOf(Other(pending[id].fn)))
    {
      if id !in pending {
        return false;
      }
      ok := true;
      match pending[id] {
        case ReadDone(fn, next) =>
          if fn == F1 {
            ok := pim.copy.ReadCompleted(pim, next, d);
          } else {
            ok := pim.mul.ReadCompleted(pim, next, d);
          }
        case WriteDone(fn, next) =>
          if fn == F1 {
            pim.copy.dma := next;
          } else {
            pim.mul.dma := next;
          }
      }
      pending := pending - {id};
    }

    /** The memory answers a request: a write lands now, a read looks now. */
    method HandleAnswer(id: nat) returns (ok: bool)
      requires Valid()
      modifies pim.copy, pim.mul, pim`buffer, this`pending, memory`flight, memory.dram
      ensures ok == Step(old(Snapshot()), Answer(id)).Some?
      ensures ok ==> Snapshot() == Step(old(Snapshot()), Answer(id)).value
    {
      hide Complete, Splice;
      if id !in memory.flight || id !in pending {
        return false;
      }
      var r := memory.flight[id];
      if r.addr + |r.payload| > memory.dram.Length {
        return false;
      }
      var d := if r.isWrite then r.payload else memory.dram[r.addr..r.addr + |r.payload|];
      if r.isWrite {
        memory.StoreBytes(r.addr, r.payload);
      }
      memory.flight := memory.flight - {id};
      ok := HandlePIMCompletion(id, d);
    }

    /** A write that is not the device's own, completing at the controller. */
    method HandleWrite(a: nat, d: seq<byte>) returns (ok: bool)
      requires Valid()
      modifies pim.f1, pim.f1.params, pim.u5, pim.u5.params, pim.copy, pim.mul, pim.sram, memory.dram
      ensures ok == Step(old(Snapshot()), Put(a, d)).Some?
      ensures ok ==> Snapshot() == Step(old(Snapshot()), Put(a, d)).value
    {
      hide Decode, SlotAt, SramWrite, WriteFsm, DmaSpec.Start, Splice;
      var info := pim.decoder.DecodeAddr(a);
      if !info.isIO {
        if a + |d| > memory.dram.Length {
          return false;
        }
        memory.StoreBytes(a, d);
        return true;
      }
      if |d| != 8 {
        return true;
      }
      if info.kind == SRAM {
        ok := pim.WriteSram(a, d);
        return;
      }
      var fn := pim.DecodeFuncNum(a, |d|);
      if fn == None {
        return false;
      }
      var p := WordBytes(d, 0);
      assert p == d;
      ok := pim.WriteSlot(fn.value, WordOf(p));
    }

    /** A read that is not the device's own. */
    method HandleRead(a: nat, n: nat) returns (ok: bool, d: seq<byte>)
      requires Valid()
      ensures ok == HostRead(Snapshot(), a, n).Some?
      ensures ok ==> d == HostRead(Snapshot(), a, n).value
    {
      d := [];
      var info := pim.decoder.DecodeAddr(a);
      if !info.isIO {
        ok := a + n <= memory.dram.Length;
        if ok {
          d := memory.dram[a..a + n];
        }
      } else if info.kind == SRAM {
        ok, d := pim.ReadSram(a, n, seq(n, _ => 0));
      } else {
        var fn := pim.DecodeFuncNum(a, n);
        ok := fn != None;
        if ok {
          var w;
          if fn.value == F1 {
            w := pim.f1.Status();
          } else {
            w := pim.u5.Status();
          }
          d := ToBytes(w, 8);
        }
      }
    }
  }
}
