/**
 The performance-query cache: an LRU of serialized responses with bounds on entries and bytes,
 and at most one load in flight per key. Each critical section is one step here.

 Times are seconds of any clock; nothing below needs it to be monotone.
 */
module QueryCacheModel {
  import opened Options

  datatype LoadError = Canceled | DeadlineExceeded | Failed(message: string)

  /** What a loader returned: Go returns the body and the error side by side. */
  datatype Outcome = Outcome(body: string, err: Option<LoadError>)

  datatype Entry = Entry(key: string, outcome: Outcome, expiresAt: int)

  datatype Config = Config(maxEntries: nat, maxBytes: nat, maxConcurrent: nat, maxWaiters: nat)

  /** `lru` lists the entries, most recently used first; flights are known by number. */
  datatype Cache = Cache(
    entries: map<string, Entry>,
    lru: seq<Entry>,
    flights: map<string, nat>,
    bytes: int,
    waiters: int)

  const EMPTY := Cache(map[], [], map[], 0, 0)

  const TTL := 30
  const ERROR_TTL := 2

  function Ttl(outcome: Outcome): int {
    if outcome.err.None? then TTL else ERROR_TTL
  }

  predicate Cacheable(outcome: Outcome, config: Config) {
    |outcome.body| <= config.maxBytes && outcome.err != Some(Canceled) && outcome.err != Some(DeadlineExceeded)
  }

  function Without(list: seq<Entry>, e: Entry): seq<Entry> {
    if list == [] then []
    else if list[0] == e then Without(list[1..], e)
    else [list[0]] + Without(list[1..], e)
  }

  function Evict(c: Cache, e: Entry): Cache {
    c.(entries := c.entries - {e.key}, bytes := c.bytes - |e.outcome.body|, lru := Without(c.lru, e))
  }

  datatype Entered = Hit(outcome: Outcome) | Busy | Join(flight: nat) | Lead

  /** Without an entry to serve: refuse, join the flight or start one. */
  function MissStep(c: Cache, config: Config, key: string, flight: nat): (Cache, Entered) {
    if key in c.flights then
      if c.waiters >= config.maxWaiters then (c, Busy)
      else (c.(waiters := c.waiters + 1), Join(c.flights[key]))
    else if |c.flights| >= config.maxConcurrent then (c, Busy)
    else (c.(flights := c.flights[key := flight]), Lead)
  }

  /** The first critical section of `get`: serve a fresh entry, or take an expired one out and go on without. */
  function EnterStep(c: Cache, config: Config, key: string, flight: nat, now: int): (Cache, Entered) {
    if key in c.entries && now < c.entries[key].expiresAt then
      var e := c.entries[key];
      (c.(lru := [e] + Without(c.lru, e)), Hit(e.outcome))
    else MissStep(if key in c.entries then Evict(c, c.entries[key]) else c, config, key, flight)
  }

  predicate Overfull(c: Cache, config: Config, size: nat) {
    |c.lru| >= config.maxEntries || c.bytes + size > config.maxBytes
  }

  /** Evicts from the back of the list until `size` more bytes fit, or nothing is left. */
  function MakeRoom(c: Cache, config: Config, size: nat): Cache
    decreases |c.lru|
  {
    if c.lru == [] || !Overfull(c, config, size) then c
    else
      WithoutShrinks(c.lru, c.lru[|c.lru| - 1]);
      MakeRoom(Evict(c, c.lru[|c.lru| - 1]), config, size)
  }

  lemma {:induction false} WithoutShrinks(list: seq<Entry>, e: Entry)
    ensures |Without(list, e)| <= |list|
    ensures e in list ==> |Without(list, e)| < |list|
  {
    if list != [] {
      WithoutShrinks(list[1..], e);
    }
  }

  function Insert(c: Cache, config: Config, key: string, outcome: Outcome, now: int): Cache {
    var room := MakeRoom(c, config, |outcome.body|);
    var e := Entry(key, outcome, now + Ttl(outcome));
    room.(entries := room.entries[key := e], lru := [e] + room.lru, bytes := room.bytes + |outcome.body|)
  }

  /** The leader's deferred section; `loaded` is None when the loader panicked. */
  function SettleStep(c: Cache, config: Config, key: string, loaded: Option<Outcome>, now: int): Cache {
    var c' := if loaded.Some? && Cacheable(loaded.value, config) then Insert(c, config, key, loaded.value, now) else c;
    c'.(flights := c'.flights - {key})
  }

  // ---------------------------------------------------------------------------------------
  // Callers and their interleavings
  // ---------------------------------------------------------------------------------------

  /** What `get` returned; the flight is the load the value came from. */
  datatype Result =
    | Cached(outcome: Outcome)
    | Loaded(flight: nat, outcome: Outcome)
    | Shared(flight: nat, loaded: Option<Outcome>)
    | Panicked(flight: nat)
    | TooBusy
    | ContextDone

  /**
   A waiter leaves in two steps: it takes its result, and only later, in a critical section
   of its own, gives back its place among the waiters.
   */
  datatype Caller =
    | Start(key: string)
    | Loading(key: string, flight: nat)
    | Waiting(key: string, flight: nat)
    | Leaving(key: string, flight: nat, result: Result)
    | Done(key: string, result: Result)

  /** A load that is over; `loaded` is None when it panicked. */
  datatype Ended = Ended(key: string, loaded: Option<Outcome>, at: int)

  datatype World = World(cache: Cache, callers: map<nat, Caller>, ended: map<nat, Ended>, started: nat)

  datatype Action =
    | Arrive(id: nat, key: string)
    | RefuseDoneContext(id: nat)
    | Enter(id: nat, now: int)
    | LoadReturns(id: nat, outcome: Outcome, now: int)
    | LoadPanics(id: nat, now: int)
    | Wake(id: nat)
    | StopWaiting(id: nat, timedOut: bool)
    | Leave(id: nat)

  predicate Enabled(w: World, a: Action) {
    match a
    case Arrive(id, _) => id !in w.callers
    case RefuseDoneContext(id) => id in w.callers && w.callers[id].Start?
    case Enter(id, _) => id in w.callers && w.callers[id].Start?
    case LoadReturns(id, _, _) => id in w.callers && w.callers[id].Loading?
    case LoadPanics(id, _) => id in w.callers && w.callers[id].Loading?
    case Wake(id) => id in w.callers && w.callers[id].Waiting? && w.callers[id].flight in w.ended
    case StopWaiting(id, _) => id in w.callers && w.callers[id].Waiting?
    case Leave(id) => id in w.callers && w.callers[id].Leaving?
  }

  function Entering(w: World, config: Config, id: nat, key: string, now: int): World {
    var (c, entered) := EnterStep(w.cache, config, key, w.started, now);
    match entered
    case Hit(outcome) => w.(cache := c, callers := w.callers[id := Done(key, Cached(outcome))])
    case Busy => w.(cache := c, callers := w.callers[id := Done(key, TooBusy)])
    case Join(flight) => w.(cache := c, callers := w.callers[id := Waiting(key, flight)])
    case Lead => w.(cache := c, callers := w.callers[id := Loading(key, w.started)], started := w.started + 1)
  }

  function Settling(w: World, config: Config, id: nat, key: string, flight: nat, loaded: Option<Outcome>, now: int): World {
    var result := if loaded.Some? then Loaded(flight, loaded.value) else Panicked(flight);
    w.(cache := SettleStep(w.cache, config, key, loaded, now),
       callers := w.callers[id := Done(key, result)],
       ended := w.ended[flight := Ended(key, loaded, now)])
  }

  function Next(w: World, config: Config, a: Action): World
    requires Enabled(w, a)
  {
    match a
    case Arrive(id, key) => w.(callers := w.callers[id := Start(key)])
    case RefuseDoneContext(id) => w.(callers := w.callers[id := Done(w.callers[id].key, ContextDone)])
    case Enter(id, now) => Entering(w, config, id, w.callers[id].key, now)
    case LoadReturns(id, outcome, now) =>
      Settling(w, config, id, w.callers[id].key, w.callers[id].flight, Some(outcome), now)
    case LoadPanics(id, now) =>
      Settling(w, config, id, w.callers[id].key, w.callers[id].flight, None, now)
    case Wake(id) =>
      var Waiting(key, flight) := w.callers[id];
      w.(callers := w.callers[id := Leaving(key, flight, Shared(flight, w.ended[flight].loaded))])
    case StopWaiting(id, timedOut) =>
      var Waiting(key, flight) := w.callers[id];
      w.(callers := w.callers[id := Leaving(key, flight, if timedOut then TooBusy else ContextDone)])
    case Leave(id) =>
      var Leaving(key, _, result) := w.callers[id];
      w.(cache := w.cache.(waiters := w.cache.waiters - 1), callers := w.callers[id := Done(key, result)])
  }

  /** The state after `actions`; an action that is not enabled is skipped. */
  function Run(config: Config, actions: seq<Action>): World {
    if actions == [] then World(EMPTY, map[], map[], 0)
    else
      var w := Run(config, actions[..|actions| - 1]);
      var a := actions[|actions| - 1];
      if Enabled(w, a) then Next(w, config, a) else w
  }
}
