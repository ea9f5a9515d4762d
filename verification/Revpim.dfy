/** The host library: init and run are ordered writes to a slot's one address, finish
    polls it. Between two polls the surroundings do whatever they may. */
module Revpim {
  import opened PimDef
  import opened Bytes
  import opened Decoder
  import opened DmaSpec
  import opened DmaProof
  import opened DmaRun
  import opened DmaProgress
  import opened Driver
  import opened Device

  method WriteSlotWord(be: PimBackend, fn: Fn, d: word) returns (ok: bool)
    requires be.Valid()
    modifies be.pim.f1, be.pim.f1.params, be.pim.u5, be.pim.u5.params
    modifies be.pim.copy, be.pim.mul, be.pim.sram, be.memory.dram
    ensures ok == SlotWrite(old(be.Snapshot()), fn, d).Some?
    ensures ok ==> be.Snapshot() == SlotWrite(old(be.Snapshot()), fn, d).value
  {
    SlotAddrDecodes(fn);
    WordCodec(d, ToBytes(d, 8));
    ok := be.HandleWrite(SlotAddr(fn), ToBytes(d, 8));
  }

  /** INIT and the eight parameters leave the slot ready with them, and nothing else changed. */
  method Init(be: PimBackend, fn: Fn, p: Params) returns (ok: bool)
    requires be.Valid() && Unused(be.Snapshot().Slot(fn))
    modifies be.pim.f1, be.pim.f1.params, be.pim.u5, be.pim.u5.params
    modifies be.pim.copy, be.pim.mul, be.pim.sram, be.memory.dram
    ensures ok && be.Snapshot() == old(be.Snapshot()).WithSlot(fn, Slot(READY, NUM_FUNC_PARAMS, p))
  {
    ghost var was := be.Snapshot();
    ok := WriteSlotWord(be, fn, INIT);
    for i := 0 to NUM_FUNC_PARAMS
      invariant ok
      invariant var s := be.Snapshot().Slot(fn);
                && be.Snapshot() == was.WithSlot(fn, s)
                && s.fstate == (if i < NUM_FUNC_PARAMS then INITIALIZING else READY)
                && s.counter == i && s.params[..i] == p[..i]
    {
      ok := WriteSlotWord(be, fn, p[i]);
    }
    assert p[..8] == p;
    assert be.Snapshot().Slot(fn).params[..8] == be.Snapshot().Slot(fn).params;
  }

  /** RUN on a legal call: the device owes the whole transfer from here on. */
  method Start(be: PimBackend, fn: Fn) returns (ok: bool)
    requires be.Valid() && Inv(be.Snapshot()) && be.Snapshot().Slot(fn).fstate == READY
    requires LegalCommand(be.Snapshot(), fn, RUN)
    modifies be.pim.f1, be.pim.f1.params, be.pim.u5, be.pim.u5.params
    modifies be.pim.copy, be.pim.mul, be.pim.sram, be.memory.dram
    ensures ok && Inv(be.Snapshot()) && Running(be.Snapshot(), fn)
    ensures Finish(be.Snapshot()) == Do(Finish(old(be.Snapshot())), Call(JobIn(old(be.Snapshot()), fn).plan))
  {
    hide Engaged, Target, Do;
    ghost var was := be.Snapshot();
    CommandSimulated(was, fn, RUN);
    ok := WriteSlotWord(be, fn, RUN);
    ghost var op := Call(JobIn(was, fn).plan);
    assert Replay(Finish(was), [op]) == Do(Finish(was), op);
  }

  // ---- finish

  /** The host's surroundings while it polls: a fair run of the device in which nobody writes
      the function page. */
  ghost predicate Surroundings(st: nat -> Pim, ev: nat -> Event) {
    FairRun(st, ev) && forall n: nat :: ev(n).Put? ==> Decode(ev(n).addr) != FUNC
  }

  /** The moments of the polls: in order, and beyond every bound. */
  ghost predicate Moments(at: nat -> nat) {
    (forall i: nat, j: nat :: i <= j ==> at(i) <= at(j)) && (forall n: nat :: PollAfter(at, n))
  }

  ghost predicate PollAfter(at: nat -> nat, n: nat) {
    exists k: nat :: n <= at(k)
  }

  /** A slot that is not running stays as it is. */
  lemma {:induction false} SlotStays(st: nat -> Pim, ev: nat -> Event, fn: Fn, a: nat, b: nat)
    requires Surroundings(st, ev) && a <= b && !Running(st(a), fn)
    ensures st(b).Slot(fn) == st(a).Slot(fn)
    decreases b - a
  {
    hide Inv, Legal, Step;
    if a < b {
      assert Step(st(a), ev(a)) == Some(st(a + 1));
      EnvAdvancesSlots(st(a), ev(a), fn);
      SlotStays(st, ev, fn, a + 1, b);
    }
  }

  /** Exactly when polling ends: if the slot was started, or is DONE already. */
  lemma PollingEndsIff(st: nat -> Pim, ev: nat -> Event, fn: Fn)
    requires Surroundings(st, ev)
    ensures (exists n: nat :: st(n).Slot(fn).fstate == DONE)
       <==> st(0).Slot(fn).fstate == RUNNING || st(0).Slot(fn).fstate == DONE
  {
    hide Inv, Legal, Step;
    if Running(st(0), fn) {
      var k := FairRunsFinish(st, ev, fn, 0);
    } else if n: nat :| st(n).Slot(fn).fstate == DONE {
      SlotStays(st, ev, fn, 0, n);
    }
  }

  /** From some poll on, every poll finds DONE. */
  lemma LastPoll(st: nat -> Pim, ev: nat -> Event, at: nat -> nat, fn: Fn) returns (last: nat)
    requires Surroundings(st, ev) && Moments(at)
    requires var s := st(at(0)).Slot(fn).fstate; s == RUNNING || s == DONE
    ensures forall i: nat :: last <= i ==> st(at(i)).Slot(fn).fstate == DONE
  {
    hide Inv, Legal, Step, FairRun;
    var d := at(0);
    if Running(st(d), fn) {
      d := FairRunsFinish(st, ev, fn, d);
    }
    assert PollAfter(at, d);
    last :| d <= at(last);
    forall i: nat | last <= i
      ensures st(at(i)).Slot(fn).fstate == DONE
    {
      SlotStays(st, ev, fn, d, at(i));
    }
  }

  /** What happens to the device from moment a to moment b. */
  method Deliver(be: PimBackend, ev: nat -> Event, a: nat, b: nat, ghost st: nat -> Pim) returns (ok: bool)
    requires be.Valid() && FairRun(st, ev) && a <= b && be.Snapshot() == st(a)
    modifies be.pim.f1, be.pim.f1.params, be.pim.u5, be.pim.u5.params, be.pim.copy, be.pim.mul
    modifies be.pim`buffer, be.pim.sram, be`pending, be.memory`flight, be.memory`nextId, be.memory.dram
    ensures ok && be.Snapshot() == st(b)
  {
    hide Inv, Step, Legal;
    ok := true;
    for i := a to b
      invariant ok && be.Snapshot() == st(i)
    {
      assert Step(st(i), ev(i)) == Some(st(i + 1)) && Legal(st(i), ev(i));
      match ev(i) {
        case Tick => ok := be.Clock();
        case Answer(id) => ok := be.HandleAnswer(id);
        case Put(addr, d) => ok := be.HandleWrite(addr, d);
        case Get(addr, n) =>
          var d;
          ok, d := be.HandleRead(addr, n);
          GetSucceeds(be.Snapshot(), addr, n);
      }
    }
  }

  lemma GetSucceeds(p: Pim, a: nat, n: nat)
    requires Legal(p, Get(a, n))
    ensures HostRead(p, a, n).Some? && Step(p, Get(a, n)) == Some(p)
  {
  }

  method ReadStatus(be: PimBackend, fn: Fn) returns (w: word)
    requires be.Valid()
    ensures w == ReadFsm(be.Snapshot().Slot(fn))
  {
    SlotAddrDecodes(fn);
    var ok, d := be.HandleRead(SlotAddr(fn), 8);
    w := WordOf(d);
    WordCodec(ReadFsm(be.Snapshot().Slot(fn)), d);
  }

  /** Between the moments, memory has become the replay of what the device was told. */
  lemma MemoryAtDone(st: nat -> Pim, ev: nat -> Event, fn: Fn, a: nat, b: nat)
    requires Surroundings(st, ev) && a <= b && Running(st(a), fn) && st(b).Slot(fn).fstate == DONE
    ensures Inv(st(a)) && st(b).core.mem == Replay(Finish(st(a)), Log(st(a), Window(ev, a, b)))
  {
    hide Legal, Step, LegalRun, Run, Engaged, Target, Replay, Log;
    assert Inv(st(a)) && Inv(st(b));
    WindowRuns(st, ev, a, b);
    RunSimulated(st(a), Window(ev, a, b));
    SlotStays(st, ev, Other(fn), a, b);
  }

  /** finish: asserts that the slot is in use, then polls until DONE. At the moments at(0),
      at(1), ... of a fair run the polls do end, the last being the first that finds DONE; if
      the slot was running, memory is by then the replay of what the device was told, the
      running call included. */
  method PollUntilDone(be: PimBackend, fn: Fn, ev: nat -> Event, at: nat -> nat, ghost st: nat -> Pim)
    returns (ok: bool, polls: nat)
    requires be.Valid() && Surroundings(st, ev) && Moments(at) && be.Snapshot() == st(at(0))
    requires be.Snapshot().Slot(fn).fstate != INITIALIZING && be.Snapshot().Slot(fn).fstate != READY
    modifies be.pim.f1, be.pim.f1.params, be.pim.u5, be.pim.u5.params, be.pim.copy, be.pim.mul
    modifies be.pim`buffer, be.pim.sram, be`pending, be.memory`flight, be.memory`nextId, be.memory.dram
    ensures ok == (old(be.Snapshot()).Slot(fn).fstate != INVALID)
    ensures be.Snapshot() == st(at(polls)) && (!ok ==> polls == 0)
    ensures ok ==> be.Snapshot().Slot(fn).fstate == DONE
    ensures forall i: nat :: i < polls ==> st(at(i)).Slot(fn).fstate != DONE
    ensures at(0) <= at(polls) && Inv(st(at(0)))
    ensures Running(old(be.Snapshot()), fn) ==>
      be.Snapshot().core.mem == Replay(Finish(st(at(0))), Log(st(at(0)), Window(ev, at(0), at(polls))))
  {
    hide Inv, Step, Legal, FairRun, Finish, Replay, Log, Window;
    polls := 0;
    assert Inv(st(at(0))) by { InvAt(st, ev, at(0)); }
    var state := ReadStatus(be, fn);
    if state == 0 {
      return false, 0;
    }
    ok := true;
    ghost var last := LastPoll(st, ev, at, fn);
    while state != 4
      invariant be.Snapshot() == st(at(polls)) && state == ReadFsm(be.Snapshot().Slot(fn))
      invariant polls <= last && forall i: nat :: i < polls ==> st(at(i)).Slot(fn).fstate != DONE
      decreases last - polls
    {
      var delivered := Deliver(be, ev, at(polls), at(polls + 1), st);
      polls := polls + 1;
      state := ReadStatus(be, fn);
    }
    if Running(st(at(0)), fn) {
      MemoryAtDone(st, ev, fn, at(0), at(polls));
    }
  }

  lemma InvAt(st: nat -> Pim, ev: nat -> Event, n: nat)
    requires FairRun(st, ev)
    ensures Inv(st(n))
  {
  }
}
