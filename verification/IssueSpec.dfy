/** The issue engine as a pure step relation: a window over a queue of requests, issued out
    of order under dependencies, fences and per-kind limits, and answered in any order. */
module IssueSpec {
  import opened PimDef

  datatype Kind = READ | WRITE | REQ_FENCE | CUSTOM

  /** deps holds the dependencies not yet satisfied. */
  datatype Req = Req(id: nat, op: Kind, deps: seq<nat>)

  /** A request sent to memory; without splitting it has one part. */
  datatype Flight = Flight(orig: nat, op: Kind)

  datatype Config = Config(maxRead: nat, maxWrite: nat, maxCustom: nat, perCycle: nat, lookups: nat,
                           appLink: bool) {
    function Max(op: Kind): nat {
      match op case READ => maxRead case WRITE => maxWrite case REQ_FENCE => 0 case CUSTOM => maxCustom
    }
  }

  datatype Counts = Counts(read: nat, write: nat, custom: nat) {
    function Get(op: Kind): nat {
      match op case READ => read case WRITE => write case REQ_FENCE => 0 case CUSTOM => custom
    }

    function Inc(op: Kind): Counts {
      match op
      case READ => this.(read := read + 1)
      case WRITE => this.(write := write + 1)
      case REQ_FENCE => this
      case CUSTOM => this.(custom := custom + 1)
    }

    function Dec(op: Kind): Counts
      requires Get(op) > 0
    {
      match op
      case READ => this.(read := read - 1)
      case WRITE => this.(write := write - 1)
      case CUSTOM => this.(custom := custom - 1)
    }
  }

  datatype Engine = Engine(pending: seq<Req>, inFlight: map<nat, Flight>, counts: Counts,
                           nextId: nat, nextMem: nat)

  /** What has happened: the dependencies each request was given, the order of issue, the
      completed requests and the retired fences. The program keeps none of it. */
  datatype History = History(asked: map<nat, seq<nat>>, issued: seq<nat>, completed: set<nat>, retired: seq<nat>)

  datatype World = World(eng: Engine, hist: History)

  /** What a generator hands over; the request number is drawn from a global counter. */
  datatype Made = Made(op: Kind, deps: seq<nat>)

  function Push(w: World, f: Made): World {
    var id := w.eng.nextId;
    World(w.eng.(pending := w.eng.pending + [Req(id, f.op, f.deps)], nextId := id + 1),
          w.hist.(asked := w.hist.asked[id := f.deps]))
  }

  function PushAll(w: World, fs: seq<Made>): World
    decreases |fs|
  {
    if fs == [] then w else PushAll(Push(w, fs[0]), fs[1..])
  }

  function Without(q: seq<Req>, id: nat): seq<Req> {
    if q == [] then [] else Without(q[..|q| - 1], id) + if q[|q| - 1].id == id then [] else [q[|q| - 1]]
  }

  function Issue(w: World, r: Req): World {
    var e := w.eng;
    World(Engine(Without(e.pending, r.id), e.inFlight[e.nextMem := Flight(r.id, r.op)], e.counts.Inc(r.op),
                 e.nextId, e.nextMem + 1),
          w.hist.(issued := w.hist.issued + [r.id]))
  }

  function Retire(w: World, r: Req): World {
    World(w.eng.(pending := Without(w.eng.pending, r.id)), w.hist.(retired := w.hist.retired + [r.id]))
  }

  /** The issue loop over the queue q as it stood, from index i on, n requests having issued
      in this cycle. Here requests leave the queue at once; the program erases them after. */
  function IssueFrom(cfg: Config, q: seq<Req>, i: nat, n: nat, w: World): World
    decreases |q| - i
  {
    if i >= |q| || n == cfg.perCycle || i == cfg.lookups then w else
    var r := q[i];
    if r.op == REQ_FENCE then
      if w.eng.inFlight == map[] then Retire(w, r) else w
    else if w.eng.counts.Get(r.op) < cfg.Max(r.op) then
      if r.deps == [] then IssueFrom(cfg, q, i + 1, n + 1, Issue(w, r))
      else IssueFrom(cfg, q, i + 1, n, w)
    else if r.op == CUSTOM then IssueFrom(cfg, q, i + 1, n, w)
    else w
  }

  /** The generator is called only to fill the window and, if it is linked to an application,
      not while reads are pending. */
  predicate Generates(cfg: Config, e: Engine) {
    |e.pending| < cfg.lookups && (!cfg.appLink || e.counts.read == 0)
  }

  /** The world once the generator has filled the window. */
  function Filled(cfg: Config, w: World, made: seq<Made>): World {
    if Generates(cfg, w.eng) then PushAll(w, made) else w
  }

  function Cycle(cfg: Config, w: World, made: seq<Made>): World {
    var v := Filled(cfg, w, made);
    IssueFrom(cfg, v.eng.pending, 0, 0, v)
  }

  /** std::vector erase of the first match, if there is one. */
  function Satisfy(deps: seq<nat>, d: nat): seq<nat> {
    if deps == [] then [] else if deps[0] == d then deps[1..] else [deps[0]] + Satisfy(deps[1..], d)
  }

  function Notify(q: seq<Req>, d: nat): seq<Req> {
    if q == [] then []
    else Notify(q[..|q| - 1], d) + [q[|q| - 1].(deps := Satisfy(q[|q| - 1].deps, d))]
  }

  /** A response; an unknown one is fatal. */
  function Respond(w: World, mem: nat): Option<World> {
    var e := w.eng;
    if mem !in e.inFlight then None else
    var f := e.inFlight[mem];
    if e.counts.Get(f.op) == 0 then None else
    Some(World(e.(pending := Notify(e.pending, f.orig), inFlight := e.inFlight - {mem}, counts := e.counts.Dec(f.op)),
               w.hist.(completed := w.hist.completed + {f.orig})))
  }

  datatype Event = Tick(made: seq<Made>) | Answer(mem: nat)

  function Step(cfg: Config, w: World, e: Event): Option<World> {
    match e
    case Tick(made) => Some(Cycle(cfg, w, made))
    case Answer(m) => Respond(w, m)
  }

  function Run(cfg: Config, w: World, es: seq<Event>): Option<World>
    decreases |es|
  {
    if es == [] then Some(w) else
    var v :- Step(cfg, w, es[0]);
    Run(cfg, v, es[1..])
  }

  /** A finished generator halts the clock when nothing is queued or pending. */
  predicate Halts(e: Engine, finished: bool) {
    finished && e.pending == [] && e.counts == Counts(0, 0, 0)
  }
}
