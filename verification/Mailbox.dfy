/** The one-slot mailbox between the application thread and the clock: one mutex, one
    condition variable on which either side may sleep, and a notification that each sends
    only after it has released the mutex. */
module Mailbox {
  datatype Cmd = NOP | READ | WRITE | DONE

  datatype Event = Event(cmd: Cmd, address: nat, data: nat)

  /** Between critical sections a thread is ready to try, asleep, or about to notify. */
  datatype Thread = Ready | Asleep | Notifying

  /** script is what the application has still to send; its last event is DONE. */
  datatype Mail = Mail(slot: seq<Event>, script: seq<Event>, consumed: seq<Event>, done: bool,
                       producer: Thread, consumer: Thread)

  datatype Move = Send | SendNotify | Take | TakeNotify | SpuriousProducer | SpuriousConsumer

  predicate Enabled(m: Mail, v: Move) {
    match v
    case Send => m.producer == Ready && m.script != []
    case SendNotify => m.producer == Notifying
    case Take => m.consumer == Ready && !m.done
    case TakeNotify => m.consumer == Notifying
    case SpuriousProducer => m.producer == Asleep
    case SpuriousConsumer => m.consumer == Asleep
  }

  function Wake(t: Thread): Thread {
    if t == Asleep then Ready else t
  }

  /** Send and Take are the critical sections: wait while the predicate fails, else act. */
  function Step(m: Mail, v: Move): Mail
    requires Enabled(m, v)
  {
    match v
    case Send =>
      if m.slot != [] then m.(producer := Asleep)
      else m.(slot := [m.script[0]], script := m.script[1..], producer := Notifying)
    case SendNotify => m.(producer := Ready, consumer := Wake(m.consumer))
    case Take =>
      if m.slot == [] then m.(consumer := Asleep)
      else m.(slot := m.slot[1..], consumed := m.consumed + [m.slot[0]],
              done := m.slot[0].cmd == DONE, consumer := Notifying)
    case TakeNotify => m.(consumer := Ready, producer := Wake(m.producer))
    case SpuriousProducer => m.(producer := Ready)
    case SpuriousConsumer => m.(consumer := Ready)
  }

  /** A script ends with its only DONE. */
  predicate EndsDone(s: seq<Event>) {
    s != [] && s[|s| - 1].cmd == DONE && forall i :: 0 <= i < |s| - 1 ==> s[i].cmd != DONE
  }

  /** All events, sent or not, in the order of the script. */
  function Everything(m: Mail): seq<Event> {
    m.consumed + m.slot + m.script
  }

  predicate Inv(m: Mail, script: seq<Event>) {
    && EndsDone(script) && Everything(m) == script
    && |m.slot| <= 1
    && (m.done <==> m.slot == [] && m.script == [])
    && (m.producer == Asleep ==> m.slot != [] || m.consumer == Notifying)
    && (m.consumer == Asleep ==> !m.done && (m.slot == [] || m.producer == Notifying))
  }

  lemma StartInv(script: seq<Event>)
    requires EndsDone(script)
    ensures Inv(Mail([], script, [], false, Ready, Ready), script)
  {
    assert Everything(Mail([], script, [], false, Ready, Ready)) == script;
  }

  lemma StepKeeps(m: Mail, v: Move, script: seq<Event>)
    requires Inv(m, script) && Enabled(m, v)
    ensures Inv(Step(m, v), script)
  {
    var n := Step(m, v);
    match v {
      case Send =>
        if m.slot == [] {
          assert m.script == [m.script[0]] + m.script[1..];
          assert Everything(n) == Everything(m);
        }
      case Take =>
        if m.slot != [] {
          var e := m.slot[0];
          assert m.slot == [e];
          assert Everything(n) == Everything(m);
          assert script[|m.consumed|] == e;
          assert |script| == |m.consumed| + 1 + |m.script|;
        }
      case _ =>
    }
  }

  predicate Schedule(m: Mail, vs: seq<Move>)
    decreases |vs|
  {
    vs == [] || (Enabled(m, vs[0]) && Schedule(Step(m, vs[0]), vs[1..]))
  }

  function Run(m: Mail, vs: seq<Move>): Mail
    requires Schedule(m, vs)
    decreases |vs|
  {
    if vs == [] then m else Run(Step(m, vs[0]), vs[1..])
  }

  /** Under every schedule, spurious wake-ups included: the slot holds at most one event, the
      consumed events are a prefix of the script, and the two sides never both sleep. */
  lemma {:induction false} MailboxSafe(m: Mail, vs: seq<Move>, script: seq<Event>)
    requires Inv(m, script) && Schedule(m, vs)
    ensures var n := Run(m, vs);
            && Inv(n, script) && |n.slot| <= 1 && n.consumed <= script
            && !(n.producer == Asleep && n.consumer == Asleep)
    decreases |vs|
  {
    if vs == [] {
      assert m.consumed + (m.slot + m.script) == script;
    } else {
      StepKeeps(m, vs[0], script);
      MailboxSafe(Step(m, vs[0]), vs[1..], script);
    }
  }

  predicate Spurious(v: Move) {
    v == SpuriousProducer || v == SpuriousConsumer
  }

  function Weight(t: Thread): nat {
    match t case Asleep => 0 case Ready => 1 case Notifying => 3
  }

  /** An event counts less the further it has come, a thread less the nearer it is to sleep. */
  function Remaining(m: Mail): nat {
    6 * |m.script| + 3 * |m.slot| + Weight(m.producer) + Weight(m.consumer)
  }

  lemma StepWorks(m: Mail, v: Move, script: seq<Event>)
    requires Inv(m, script) && Enabled(m, v) && !Spurious(v)
    ensures Remaining(Step(m, v)) < Remaining(m)
  {
  }

  /** Until DONE is consumed some thread can move without a spurious wake-up; after it, the
      consumer has everything and never waits again. */
  lemma MailboxLive(m: Mail, script: seq<Event>)
    requires Inv(m, script)
    ensures !m.done ==> exists v :: !Spurious(v) && Enabled(m, v)
    ensures m.done ==> m.consumer != Asleep && m.consumed == script && !Enabled(m, Take)
  {
    if m.done {
      assert m.consumed + m.slot + m.script == m.consumed;
    } else if m.producer == Notifying {
      assert Enabled(m, SendNotify);
    } else if m.consumer == Notifying {
      assert Enabled(m, TakeNotify);
    } else if m.consumer == Ready {
      assert Enabled(m, Take);
    } else {
      assert Enabled(m, Send);
    }
  }

  /** Without spurious wake-ups a schedule is never longer than the work there is, so one
      that cannot be extended has delivered the whole script. */
  lemma {:induction false} MailboxTerminates(m: Mail, vs: seq<Move>, script: seq<Event>)
    requires Inv(m, script) && Schedule(m, vs) && forall v :: v in vs ==> !Spurious(v)
    ensures Remaining(Run(m, vs)) + |vs| <= Remaining(m)
    ensures (forall v :: Enabled(Run(m, vs), v) ==> Spurious(v)) ==> Run(m, vs).consumed == script
    decreases |vs|
  {
    if vs == [] {
      MailboxLive(m, script);
    } else {
      StepKeeps(m, vs[0], script);
      StepWorks(m, vs[0], script);
      hide Inv, Enabled, Step, Remaining;
      MailboxTerminates(Step(m, vs[0]), vs[1..], script);
    }
  }
}
