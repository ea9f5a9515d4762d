/** The device as its host sees it, by address and by value: where accesses go, what they read,
    which words a slot accepts, and exactly what the program stops on. */
module HostAccess {
  import opened PimDef
  import opened Bytes
  import opened Transfer
  import opened Decoder
  import opened DmaSpec

  // ---- the address map

  predicate InFuncPage(a: nat) {
    0x0e00_0000 <= a < 0x0f00_0000
  }

  predicate InScratchpad(a: nat) {
    0x0f00_0000 <= a < 0x0f80_0000
  }

  /** The slot at an address of the function page: number 1 or 13 of sixteen eight-byte slots. */
  function SlotNumber(a: nat): nat {
    (a / 8) % 16
  }

  function Patched(b: seq<byte>, k: nat, d: seq<byte>): (r: seq<byte>)
    requires k + |d| <= |b|
    ensures |r| == |b|
  {
    seq(|b|, i requires 0 <= i < |b| => if k <= i < k + |d| then d[i - k] else b[i])
  }

  lemma PatchedThere(b: seq<byte>, k: nat, d: seq<byte>)
    requires k + |d| <= |b|
    ensures Patched(b, k, d)[k..k + |d|] == d
  {
  }

  /** Where a host write goes: into DRAM, where it must fit; if it is eight bytes long, into the
      kilobyte of the scratchpad, which repeats and which it must not run past; or, eight bytes
      long and aligned, to one of the two slots. Other lengths do nothing in the mapped range. */
  lemma HostWriteGoes(p: Pim, a: nat, d: seq<byte>)
    requires |p.core.mem.sram| == 1024
    ensures !InFuncPage(a) && !InScratchpad(a) ==>
      HostWrite(p, a, d) == if a + |d| > |p.core.mem.dram| then None else
        Some(p.(core := p.core.(mem := Mem(Patched(p.core.mem.dram, a, d), p.core.mem.sram))))
    ensures (InFuncPage(a) || InScratchpad(a)) && |d| != 8 ==> HostWrite(p, a, d) == Some(p)
    ensures InScratchpad(a) && |d| == 8 ==>
      HostWrite(p, a, d) == if a % 1024 + 8 > 1024 then None else
        Some(p.(core := p.core.(mem := Mem(p.core.mem.dram, Patched(p.core.mem.sram, a % 1024, d)))))
    ensures InFuncPage(a) && |d| == 8 ==>
      HostWrite(p, a, d) == if a % 8 != 0 then None
        else if SlotNumber(a) == 1 then SlotWrite(p, F1, WordOf(d))
        else if SlotNumber(a) == 13 then SlotWrite(p, U5, WordOf(d))
        else None
  {
    hide SlotWrite, Splice;
    var m := p.core.mem;
    if a + |d| <= |m.dram| {
      assert Splice(m.dram, a, d) == Patched(m.dram, a, d);
    }
    if a % 1024 + |d| <= 1024 {
      assert Splice(m.sram, a % 1024, d) == Patched(m.sram, a % 1024, d);
    }
  }

  /** And where a host read looks. */
  lemma HostReadGoes(p: Pim, a: nat, n: nat)
    requires |p.core.mem.sram| == 1024
    ensures !InFuncPage(a) && !InScratchpad(a) ==>
      HostRead(p, a, n) == if a + n > |p.core.mem.dram| then None else Some(p.core.mem.dram[a..a + n])
    ensures InScratchpad(a) ==>
      HostRead(p, a, n) == if a % 1024 + n > 1024 then None else Some(p.core.mem.sram[a % 1024..a % 1024 + n])
    ensures InFuncPage(a) ==>
      (HostRead(p, a, n).Some? <==> a % 8 == 0 && n == 8 && (SlotNumber(a) == 1 || SlotNumber(a) == 13))
  {
  }

  /** Any two host accesses: a read finds what a write to the same place has just put there. */
  lemma WrittenIsRead(p: Pim, a: nat, d: seq<byte>)
    requires |p.core.mem.sram| == 1024 && !InFuncPage(a) && (InScratchpad(a) ==> |d| == 8)
    requires HostWrite(p, a, d).Some?
    ensures |HostWrite(p, a, d).value.core.mem.sram| == 1024
    ensures HostRead(HostWrite(p, a, d).value, a, |d|) == Some(d)
  {
    hide HostWrite, HostRead, Patched, Decode;
    HostWriteGoes(p, a, d);
    HostReadGoes(HostWrite(p, a, d).value, a, |d|);
    if InScratchpad(a) {
      PatchedThere(p.core.mem.sram, a % 1024, d);
    } else {
      PatchedThere(p.core.mem.dram, a, d);
    }
  }

  // ---- what a slot shows

  /** A read of a slot's address gives the number k. */
  predicate Shows(p: Pim, fn: Fn, k: byte) {
    HostRead(p, if fn == F1 then 0x0e00_0008 else 0x0e00_0068, 8) == Some([k, 0, 0, 0, 0, 0, 0, 0])
  }

  lemma SmallWord(k: byte)
    ensures ToBytes(k, 8) == [k, 0, 0, 0, 0, 0, 0, 0]
  {
    ToBytesZero(7);
    assert ToBytes(k, 8) == [k] + ToBytes(0, 7);
  }

  /** The numbers of the five states. */
  lemma StatusIff(p: Pim, fn: Fn)
    ensures Shows(p, fn, 0) <==> p.Slot(fn).fstate == INVALID
    ensures Shows(p, fn, 1) <==> p.Slot(fn).fstate == INITIALIZING
    ensures Shows(p, fn, 2) <==> p.Slot(fn).fstate == READY
    ensures Shows(p, fn, 3) <==> p.Slot(fn).fstate == RUNNING
    ensures Shows(p, fn, 4) <==> p.Slot(fn).fstate == DONE
  {
    var a := if fn == F1 then 0x0e00_0008 else 0x0e00_0068;
    assert SlotAt(a, 8) == Some(fn) && Decode(a) == FUNC;
    var w := ReadFsm(p.Slot(fn));
    SmallWord(0);
    SmallWord(1);
    SmallWord(2);
    SmallWord(3);
    SmallWord(4);
    hide ToBytes;
    assert HostRead(p, a, 8) == Some(ToBytes(w, 8));
    assert ToBytes(w, 8)[0] == w;
  }

  // ---- what a slot accepts

  function Feed(s: Slot, ws: seq<word>): Option<Slot>
    decreases |ws|
  {
    if ws == [] then Some(s) else
    var (t, _) :- WriteFsm(s, ws[0]);
    Feed(t, ws[1..])
  }

  /** Where in a packet of eleven words a slot is: INIT, eight parameters, RUN, end of run. */
  predicate AtPhase(s: Slot, k: nat) {
    if k == 0 then s.fstate == INVALID || s.fstate == DONE
    else if k <= 8 then s.fstate == INITIALIZING && s.counter == k - 1
    else if k == 9 then s.fstate == READY
    else k == 10 && s.fstate == RUNNING
  }

  /** Only the first and the tenth word of a packet are checked, and of them the low 32 bits. */
  predicate Acceptable(w: word, k: nat) {
    (k == 0 ==> w % 0x1_0000_0000 == 0) && (k == 9 ==> w % 0x1_0000_0000 == 1)
  }

  /** The words follow the protocol, the first of them being the k-th counted from a start. */
  predicate Follows(ws: seq<word>, k: nat) {
    forall i: nat :: i < |ws| ==> Acceptable(ws[i], (k + i) % 11)
  }

  lemma FollowsFirst(ws: seq<word>, k: nat)
    requires ws != []
    ensures Follows(ws, k) <==> Acceptable(ws[0], k % 11) && Follows(ws[1..], k + 1)
  {
    hide Acceptable;
    var rest := ws[1..];
    if Acceptable(ws[0], k % 11) && Follows(rest, k + 1) {
      forall i: nat | i < |ws|
        ensures Acceptable(ws[i], (k + i) % 11)
      {
        if i > 0 {
          assert Acceptable(rest[i - 1], (k + 1 + (i - 1)) % 11);
        }
      }
    }
    if Follows(ws, k) {
      assert Acceptable(ws[0], (k + 0) % 11);
      forall i: nat | i < |rest|
        ensures Acceptable(rest[i], (k + 1 + i) % 11)
      {
        assert Acceptable(ws[i + 1], (k + (i + 1)) % 11);
      }
    }
  }

  lemma OneWord(s: Slot, k: nat, w: word)
    requires AtPhase(s, k % 11)
    ensures WriteFsm(s, w).Some? <==> Acceptable(w, k % 11)
    ensures WriteFsm(s, w).Some? ==> AtPhase(WriteFsm(s, w).value.0, (k + 1) % 11)
  {
  }

  /** A slot accepts exactly the words that follow this protocol, however many, and is then in
      the phase that their number says. */
  lemma {:induction false} SlotAcceptsIff(s: Slot, k: nat, ws: seq<word>)
    requires AtPhase(s, k % 11)
    ensures Feed(s, ws).Some? <==> Follows(ws, k)
    ensures Feed(s, ws).Some? ==> AtPhase(Feed(s, ws).value, (k + |ws|) % 11)
    decreases |ws|
  {
    hide AtPhase, Acceptable, WriteFsm;
    if ws == [] {
      NothingFollows(k);
    } else {
      hide Follows;
      FollowsFirst(ws, k);
      OneWord(s, k, ws[0]);
      if Acceptable(ws[0], k % 11) {
        SlotAcceptsIff(WriteFsm(s, ws[0]).value.0, k + 1, ws[1..]);
      }
    }
  }

  lemma NothingFollows(k: nat)
    ensures Follows([], k)
  {
  }

  // ---- what the program stops on

  /** A call is refused exactly for a byte count that is no multiple of eight or, if it is a
      copy, an end in the function page; no bytes at all change nothing. */
  lemma StartFailsIff(fn: Fn, f: Fsm, p: Params)
    ensures var count := if fn == F1 then p[2] else p[3];
            && (Start(fn, f, p).None? <==>
                  count != 0 && (count % 8 != 0 || (fn == F1 && (InFuncPage(p[0]) || InFuncPage(p[1])))))
            && (count == 0 ==> Start(fn, f, p) == Some(f))
  {
  }

  /** An engine's clock fails exactly when it reads or writes outside its memory: past the end
      of the scratchpad's kilobyte or off the scratchpad, or from a DRAM address that is not. */
  lemma ClockFailsIff(fn: Fn, f: Fsm, c: Core)
    requires |c.mem.sram| == 1024
    ensures var n := 8 * Min(64, f.counter);
            ClockFsm(fn, f, c).None? <==>
              || (f.dma == Read && if f.srcSram then !InScratchpad(f.src) || f.src % 1024 + n > 1024
                                   else f.src >= |c.mem.dram|)
              || (f.dma == Write && if f.dstSram then !InScratchpad(f.dst) || f.dst % 1024 + n > 1024
                                    else f.dst >= |c.mem.dram|)
  {
  }

  /** An answer fails exactly if it is to nothing that is outstanding, to a request outside the
      memory, or to a read when the buffer has not the length of what comes. */
  lemma AnswerFailsIff(p: Pim, id: nat)
    ensures Respond(p, id).None? <==>
              || id !in p.core.flight || id !in p.core.pending
              || var r, done := p.core.flight[id], p.core.pending[id];
                 || r.addr + |r.payload| > |p.core.mem.dram|
                 || (done.ReadDone? && (|p.core.buffer| != |r.payload|
                                        || (p.Fsm(done.fn).xform.Times? && |r.payload| % 8 != 0)))
  {
    hide Splice, Scale;
  }

  /** A slot that finishes ends the cycle: the later slot's engine is not clocked in it. */
  lemma FinishEndsCycle(p: Pim)
    requires Clock(p).Some? && p.f1.fstate == RUNNING && p.copy.dma == Done
    ensures var q := Clock(p).value;
            && q.f1.fstate == DONE && q.copy.dma == Idle && q.u5 == p.u5 && q.mul == p.mul
            && q.core.flight == p.core.flight && q.core.mem == p.core.mem
  {
  }
}
