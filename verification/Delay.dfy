/** The backend's delay queue: every queued request has one wake-up on the self link, and a
    wake-up whose request the backend refuses is sent again. */
module Delay {
  import opened PimDef

  datatype Req = Req(id: nat, addr: nat, isWrite: bool, numBytes: nat)

  /** The queue, the wake-ups under way, and what the backend has accepted so far. */
  datatype State = State(queue: seq<Req>, wakeups: nat, accepted: seq<Req>)

  datatype Event = Arrive(req: Req) | Wake(accepts: bool)

  /** A wake-up with an empty queue would read past it; none without a wake-up under way. */
  function Step(s: State, e: Event): Option<State> {
    match e
    case Arrive(r) => Some(s.(queue := s.queue + [r], wakeups := s.wakeups + 1))
    case Wake(accepts) =>
      if s.wakeups == 0 || s.queue == [] then None
      else if accepts then Some(State(s.queue[1..], s.wakeups - 1, s.accepted + [s.queue[0]]))
      else Some(s)
  }

  function Run(s: State, es: seq<Event>): Option<State>
    decreases |es|
  {
    if es == [] then Some(s) else
    var t :- Step(s, es[0]);
    Run(t, es[1..])
  }

  predicate Inv(s: State) {
    s.wakeups == |s.queue|
  }

  predicate Legal(s: State, es: seq<Event>)
    decreases |es|
  {
    es == [] || ((es[0].Wake? ==> s.wakeups > 0)
                 && (Step(s, es[0]).Some? ==> Legal(Step(s, es[0]).value, es[1..])))
  }

  function Arrivals(es: seq<Event>): seq<Req> {
    if es == [] then [] else (if es[0].Arrive? then [es[0].req] else []) + Arrivals(es[1..])
  }

  function Accepts(es: seq<Event>): nat {
    if es == [] then 0 else (if es[0] == Wake(true) then 1 else 0) + Accepts(es[1..])
  }

  /** Over any run, with any refusals: no wake-up finds the queue empty, wake-ups and queued
      requests stay equal in number, and what the backend accepted followed by what still
      waits is everything that arrived, in order of arrival, each once; exactly the
      accepting wake-ups move one request across. */
  lemma {:induction false} DelayKeepsOrder(s: State, es: seq<Event>)
    requires Inv(s) && Legal(s, es)
    ensures Run(s, es).Some? && Inv(Run(s, es).value)
    ensures var t := Run(s, es).value;
            && t.accepted + t.queue == s.accepted + s.queue + Arrivals(es)
            && |t.accepted| == |s.accepted| + Accepts(es)
    decreases |es|
  {
    if es != [] {
      var t := Step(s, es[0]).value;
      DelayKeepsOrder(t, es[1..]);
      match es[0] {
        case Arrive(r) =>
          assert s.accepted + (s.queue + [r]) + Arrivals(es[1..]) == s.accepted + s.queue + ([r] + Arrivals(es[1..]));
        case Wake(accepts) =>
          if accepts {
            assert s.queue == [s.queue[0]] + s.queue[1..];
            assert t.accepted + t.queue == s.accepted + s.queue;
          }
          assert Arrivals(es) == Arrivals(es[1..]);
      }
    }
  }

  /** The queue itself, with the self link and the backend behind it as its environment. */
  class DelayBuffer {
    var requestBuffer: seq<Req>
    var wakeups: nat
    ghost var accepted: seq<Req>

    ghost function Value(): State
      reads this
    {
      State(requestBuffer, wakeups, accepted)
    }

    constructor ()
      ensures Value() == State([], 0, [])
    {
      requestBuffer, wakeups, accepted := [], 0, [];
    }

    method IssueRequest(r: Req)
      modifies this
      ensures Step(old(Value()), Arrive(r)) == Some(Value())
    {
      requestBuffer := requestBuffer + [r];
      wakeups := wakeups + 1;
    }

    /** A wake-up arrives; accepts is the backend's answer to the front request. */
    method HandleNextRequest(accepts: bool) returns (front: Req)
      requires Inv(Value()) && wakeups > 0
      modifies this
      ensures Step(old(Value()), Wake(accepts)) == Some(Value()) && Inv(Value())
      ensures front == old(requestBuffer)[0]
    {
      wakeups := wakeups - 1;
      front := requestBuffer[0];
      if !accepts {
        wakeups := wakeups + 1;
      } else {
        requestBuffer := requestBuffer[1..];
        accepted := accepted + [front];
      }
    }
  }
}
