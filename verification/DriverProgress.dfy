/** Every fair interleaving of the driver, the device and its surroundings finishes every
    call: polling ends, and memory is then the fold of the calls. */
module DriverProgress {
  import opened PimDef
  import opened Transfer
  import opened Decoder
  import opened DmaSpec
  import opened DmaProof
  import opened DmaRun
  import opened DmaProgress
  import opened Driver

  ghost predicate TurnAfter(tn: nat -> Turn, n: nat, t: Turn) {
    exists m: nat :: n <= m && tn(m) == t
  }

  /** An endless run of the whole: every turn is legal and taken, the host and the clock get
      their turns for ever, and every outstanding request is answered at some time. */
  ghost predicate FairWorld(st: nat -> World, tn: nat -> Turn) {
    && WorldInv(st(0))
    && (forall n: nat :: LegalTurn(st(n), tn(n)) && Take(st(n), tn(n)) == Some(st(n + 1)))
    && (forall n: nat :: TurnAfter(tn, n, HostTurn) && TurnAfter(tn, n, Env(Tick)))
    && (forall n: nat, id: nat :: id in st(n).pim.core.flight ==> TurnAfter(tn, n, Env(Answer(id))))
  }

  lemma {:induction false} WorldInvAt(st: nat -> World, tn: nat -> Turn, n: nat)
    requires FairWorld(st, tn)
    ensures WorldInv(st(n)) && st(n).host.calls == st(0).host.calls
    decreases n
  {
    hide WorldInv, LegalTurn, Take;
    if n > 0 {
      WorldInvAt(st, tn, n - 1);
      assert Take(st(n - 1), tn(n - 1)) == Some(st(n));
      TurnSimulated(st(n - 1), tn(n - 1));
    }
  }

  // ---- the device's part of it

  /** What a turn is to the device; an idle host does nothing, which reading no bytes is too. */
  function DeviceEvent(w: World, t: Turn): Event {
    var e := TurnEvent(w, t);
    if e.None? then Get(0, 0) else e.value
  }

  lemma TurnIsEvent(w: World, t: Turn)
    requires WorldInv(w) && LegalTurn(w, t)
    ensures Take(w, t).Some? && Inv(w.pim) && Legal(w.pim, DeviceEvent(w, t))
    ensures Step(w.pim, DeviceEvent(w, t)) == Some(Take(w, t).value.pim)
  {
    hide Inv, LegalCall, Step, HostRead;
    TurnSimulated(w, t);
    if t.HostTurn? {
      if w.host.finished == |w.host.calls| {
        NothingRead(w.pim);
      } else if w.host.pos < FIRST_POLL {
        HostWriteTurn(w);
      } else {
        HostPollTurn(w);
      }
    }
  }

  lemma NothingRead(p: Pim)
    ensures HostRead(p, 0, 0).Some? && Step(p, Get(0, 0)) == Some(p)
  {
  }

  function Devices(st: nat -> World): nat -> Pim {
    (n: nat) => st(n).pim
  }

  function Events(st: nat -> World, tn: nat -> Turn): nat -> Event {
    (n: nat) => DeviceEvent(st(n), tn(n))
  }

  /** The device of a fair world runs fairly. */
  lemma DeviceRunsFairly(st: nat -> World, tn: nat -> Turn)
    requires FairWorld(st, tn)
    ensures FairRun(Devices(st), Events(st, tn))
  {
    hide Inv, WorldInv, Legal, LegalTurn, Take, Step;
    var ds, ev := Devices(st), Events(st, tn);
    forall n: nat
      ensures Inv(ds(n)) && Legal(ds(n), ev(n)) && Step(ds(n), ev(n)) == Some(ds(n + 1))
    {
      WorldInvAt(st, tn, n);
      TurnIsEvent(st(n), tn(n));
      assert Take(st(n), tn(n)) == Some(st(n + 1));
    }
    forall n: nat
      ensures HappensAfter(ev, n, Tick)
    {
      assert TurnAfter(tn, n, Env(Tick));
      var m: nat :| n <= m && tn(m) == Env(Tick);
      assert ev(m) == Tick;
    }
    forall n: nat, id: nat | id in ds(n).core.flight
      ensures HappensAfter(ev, n, Answer(id))
    {
      assert TurnAfter(tn, n, Env(Answer(id)));
      var m: nat :| n <= m && tn(m) == Env(Answer(id));
      assert ev(m) == Answer(id);
    }
  }

  // ---- the driver's part of it

  /** Turns the driver still needs, if every poll were the last. */
  function Remaining(h: Host): int {
    11 * (|h.calls| - h.finished) - Min(h.pos, FIRST_POLL)
  }

  lemma TurnRemaining(w: World, t: Turn)
    requires WorldInv(w) && LegalTurn(w, t)
    ensures Take(w, t).Some?
    ensures var h, g := w.host, Take(w, t).value.host;
            && Remaining(g) <= Remaining(h) && 0 <= Remaining(h)
            && (t == HostTurn && h.pos < FIRST_POLL && Remaining(h) > 0 ==> Remaining(g) < Remaining(h))
            && (Remaining(h) == 0 <==> h.finished == |h.calls|) && h.finished <= |h.calls|
  {
    hide Inv, LegalCall, Step, Legal;
    if t.Env? {
      EnvTurn(w, t.event);
    } else if w.host.finished < |w.host.calls| {
      if w.host.pos < FIRST_POLL {
        HostWriteTurn(w);
      } else {
        HostPollTurn(w);
      }
    }
  }

  lemma {:induction false} RemainingFalls(st: nat -> World, tn: nat -> Turn, n: nat, m: nat)
    requires FairWorld(st, tn) && n <= m
    ensures Remaining(st(m).host) <= Remaining(st(n).host)
    decreases m - n
  {
    hide WorldInv, LegalTurn, Take, Remaining;
    if n < m {
      WorldInvAt(st, tn, n);
      assert Take(st(n), tn(n)) == Some(st(n + 1));
      TurnRemaining(st(n), tn(n));
      RemainingFalls(st, tn, n + 1, m);
    }
  }

  predicate Polling(h: Host) {
    h.finished < |h.calls| && h.pos >= FIRST_POLL
  }

  function Current(h: Host): Invocation
    requires h.finished < |h.calls|
  {
    h.calls[h.finished]
  }

  /** A poll that finds DONE is the last of its call, and DONE stays until that poll. */
  lemma {:induction false} DoneIsSeen(st: nat -> World, tn: nat -> Turn, n: nat, m: nat)
    requires FairWorld(st, tn) && n <= m && tn(m) == HostTurn
    requires Polling(st(n).host) && st(n).pim.Slot(Current(st(n).host).fn).fstate == DONE
    ensures Remaining(st(m + 1).host) < Remaining(st(n).host)
    decreases m - n
  {
    hide WorldInv, LegalTurn, Take;
    WorldInvAt(st, tn, n);
    var w := st(n);
    assert LegalTurn(w, tn(n)) && Take(w, tn(n)) == Some(st(n + 1));
    if tn(n) == HostTurn {
      HostPollTurn(w);
      RemainingFalls(st, tn, n + 1, m + 1);
    } else {
      EnvTurn(w, tn(n).event);
      DoneIsSeen(st, tn, n + 1, m);
    }
  }

  /** The slot a polling driver looks at is running or DONE. */
  lemma PolledSlot(w: World)
    requires WorldInv(w) && Polling(w.host)
    ensures var s := w.pim.Slot(Current(w.host).fn); s.fstate == RUNNING || s.fstate == DONE
  {
    hide Inv;
  }

  /** While the polled slot runs, the driver keeps polling it. */
  lemma {:induction false} StillPolling(st: nat -> World, tn: nat -> Turn, fn: Fn, n: nat, m: nat)
    requires FairWorld(st, tn) && n <= m && Polling(st(n).host) && Current(st(n).host).fn == fn
    requires Running(st(n).pim, fn) && RunsThrough(Devices(st), fn, n, m)
    ensures Polling(st(m).host) && Current(st(m).host) == Current(st(n).host)
    ensures Remaining(st(m).host) == Remaining(st(n).host)
    decreases m - n
  {
    hide WorldInv, LegalTurn, Take;
    if n < m {
      WorldInvAt(st, tn, n);
      var w := st(n);
      assert LegalTurn(w, tn(n)) && Take(w, tn(n)) == Some(st(n + 1));
      if tn(n) == HostTurn {
        HostPollTurn(w);
      } else {
        EnvTurn(w, tn(n).event);
      }
      if n + 1 < m {
        assert Devices(st)(n + 1).Slot(fn) == Devices(st)(n).Slot(fn);
        StillPolling(st, tn, fn, n + 1, m);
      }
    }
  }

  /** Polling ends: the slot becomes DONE, and the next poll sees it. */
  lemma PollingEnds(st: nat -> World, tn: nat -> Turn, n: nat) returns (k: nat)
    requires FairWorld(st, tn) && Polling(st(n).host)
    ensures n < k && Remaining(st(k).host) < Remaining(st(n).host)
  {
    hide WorldInv, LegalTurn, Take;
    WorldInvAt(st, tn, n);
    PolledSlot(st(n));
    var fn, d := Current(st(n).host).fn, n;
    if Running(st(n).pim, fn) {
      DeviceRunsFairly(st, tn);
      d := FairRunsFinish(Devices(st), Events(st, tn), fn, n);
      StillPolling(st, tn, fn, n, d);
    }
    assert TurnAfter(tn, d, HostTurn);
    var m: nat :| d <= m && tn(m) == HostTurn;
    DoneIsSeen(st, tn, d, m);
    k := m + 1;
  }

  /** The driver gets through its whole list of calls. */
  lemma {:induction false} DriverFinishes(st: nat -> World, tn: nat -> Turn, n: nat) returns (k: nat)
    requires FairWorld(st, tn)
    ensures n <= k && WorldInv(st(k)) && st(k).host.finished == |st(k).host.calls|
    decreases Remaining(st(n).host)
  {
    hide WorldInv, LegalTurn, Take, Remaining;
    WorldInvAt(st, tn, n);
    assert LegalTurn(st(n), tn(n));
    TurnRemaining(st(n), tn(n));
    if st(n).host.finished == |st(n).host.calls| {
      k := n;
    } else if Polling(st(n).host) {
      var m := PollingEnds(st, tn, n);
      k := DriverFinishes(st, tn, m);
    } else {
      assert TurnAfter(tn, n, HostTurn);
      var m: nat :| n <= m && tn(m) == HostTurn;
      WritingGoesOn(st, tn, n, m);
      k := DriverFinishes(st, tn, m + 1);
    }
  }

  /** A driver that is still writing is one access further after its next turn. */
  lemma WritingGoesOn(st: nat -> World, tn: nat -> Turn, n: nat, m: nat)
    requires FairWorld(st, tn) && n <= m && tn(m) == HostTurn
    requires st(n).host.finished < |st(n).host.calls| && st(n).host.pos < FIRST_POLL
    ensures Remaining(st(m + 1).host) < Remaining(st(n).host)
  {
    hide WorldInv, LegalTurn, Take;
    WorldInvAt(st, tn, m);
    RemainingFalls(st, tn, n, m);
    assert LegalTurn(st(m), tn(m)) && Take(st(m), tn(m)) == Some(st(m + 1));
    TurnRemaining(st(m), tn(m));
    WorldInvAt(st, tn, n);
    if Remaining(st(m).host) == Remaining(st(n).host) {
      SameRemaining(st(n).host, st(m).host);
    }
  }

  lemma SameRemaining(h: Host, g: Host)
    requires h.calls == g.calls && h.finished < |h.calls| && g.finished <= |g.calls| && h.pos < FIRST_POLL
    requires Remaining(h) == Remaining(g)
    ensures g.pos < FIRST_POLL && Remaining(g) > 0
  {
  }

  // ---- and with the right memory

  function Turns(tn: nat -> Turn, a: nat, b: nat): seq<Turn>
    requires a <= b
  {
    seq(b - a, i requires 0 <= i < b - a => tn(a + i))
  }

  lemma {:induction false} TurnsRun(st: nat -> World, tn: nat -> Turn, a: nat, b: nat)
    requires FairWorld(st, tn) && a <= b
    ensures LegalTurns(st(a), Turns(tn, a, b)) && TakeAll(st(a), Turns(tn, a, b)) == Some(st(b))
    decreases b - a
  {
    hide WorldInv, LegalTurn, Take;
    if a < b {
      var ts := Turns(tn, a, b);
      assert ts[0] == tn(a) && ts[1..] == Turns(tn, a + 1, b);
      assert LegalTurn(st(a), tn(a)) && Take(st(a), tn(a)) == Some(st(a + 1));
      TurnsRun(st, tn, a + 1, b);
    }
  }

  /** Total correctness: from a driver that has done nothing, over a device that runs nothing,
      every fair world comes to a moment at which all calls are finished and memory is the
      pure transfers folded in order, with the traffic so far on top. */
  lemma FairCallsFold(st: nat -> World, tn: nat -> Turn) returns (k: nat)
    requires FairWorld(st, tn) && st(0).host.finished == st(0).host.pos == 0
    requires !Running(st(0).pim, F1) && !Running(st(0).pim, U5) && AllHarmless(st(0).host.calls)
    requires forall n: nat :: TrafficClear([tn(n)], st(0).host.calls)
    ensures CallsLegal(st(0).pim.core.mem, st(0).host.calls) && st(k).host.finished == |st(0).host.calls|
    ensures st(k).pim.core.mem
         == Replay(Fold(st(0).pim.core.mem, st(0).host.calls), PutsIn(WorldLog(st(0), Turns(tn, 0, k))))
  {
    hide Inv, LegalTurn, Take, AllHarmless, Running, ClearOfAll, LegalTurns, TakeAll;
    k := DriverFinishes(st, tn, 0);
    WorldInvAt(st, tn, k);
    TurnsRun(st, tn, 0, k);
    var ts := Turns(tn, 0, k);
    forall t | t in ts
      ensures TrafficClear([t], st(0).host.calls)
    {
      var i :| 0 <= i < |ts| && ts[i] == t;
      assert TrafficClear([tn(i)], st(0).host.calls);
    }
    EachClear(ts, st(0).host.calls);
    CompletedCallsFold(st(0), ts);
  }

  lemma EachClear(ts: seq<Turn>, cs: seq<Invocation>)
    requires forall t :: t in ts ==> TrafficClear([t], cs)
    ensures TrafficClear(ts, cs)
  {
    forall t | t in ts && t.Env? && t.event.Put?
      ensures ClearOfAll(if IsIO(t.event.addr) then SramLoc(t.event.addr) else Loc(Dram, t.event.addr),
                         |t.event.data|, cs)
    {
      assert TrafficClear([t], cs) && t in [t];
    }
  }
}
