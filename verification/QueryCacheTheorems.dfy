/**
 Safety of the cache in every state that any interleaving of any number of callers can reach,
 whatever loaders return and whenever they panic.
 */
module QueryCacheTheorems {
  import opened Options
  import opened QueryCacheModel
  import opened QueryCacheStore

  // ---------------------------------------------------------------------------------------
  // The invariant
  // ---------------------------------------------------------------------------------------

  /** The load `flight` was for `key`, is over, and gave `loaded`. */
  ghost predicate Gave(w: World, flight: nat, key: string, loaded: Option<Outcome>) {
    flight in w.ended && w.ended[flight].key == key && w.ended[flight].loaded == loaded
  }

  /** The load behind a cached entry: same key, same outcome, and never a cancellation. */
  ghost predicate LoadedBy(w: World, config: Config, e: Entry, flight: nat) {
    && Gave(w, flight, e.key, Some(e.outcome))
    && Cacheable(e.outcome, config)
    && e.expiresAt == w.ended[flight].at + Ttl(e.outcome)
  }

  ghost predicate EntryOk(w: World, config: Config, key: string)
    requires key in w.cache.entries
  {
    key !in w.cache.flights && exists flight :: LoadedBy(w, config, w.cache.entries[key], flight)
  }

  /** A flight is new, unfinished, and its leader is still loading. */
  ghost predicate FlightOk(w: World, key: string)
    requires key in w.cache.flights
  {
    var flight := w.cache.flights[key];
    flight < w.started && flight !in w.ended && exists id :: Leads(w, id, key)
  }

  ghost predicate Leads(w: World, id: nat, key: string) {
    id in w.callers && w.callers[id].Loading? && w.callers[id].key == key
  }

  ghost predicate ResultOk(w: World, key: string, result: Result) {
    match result
    case Cached(outcome) => exists flight :: Gave(w, flight, key, Some(outcome))
    case Loaded(flight, outcome) => Gave(w, flight, key, Some(outcome))
    case Shared(flight, loaded) => Gave(w, flight, key, loaded)
    case Panicked(flight) => Gave(w, flight, key, None)
    case TooBusy => true
    case ContextDone => true
  }

  ghost predicate InFlight(w: World, key: string, flight: nat) {
    key in w.cache.flights && w.cache.flights[key] == flight
  }

  ghost predicate CallerOk(w: World, id: nat)
    requires id in w.callers
  {
    match w.callers[id]
    case Start(_) => true
    case Loading(key, flight) =>
      InFlight(w, key, flight) && (forall other :: Leads(w, other, key) ==> other == id)
    case Waiting(key, flight) => InFlight(w, key, flight) || (flight in w.ended && w.ended[flight].key == key)
    case Leaving(key, flight, result) => ResultOk(w, key, result) && (result.Shared? ==> result.flight == flight)
    case Done(key, result) => ResultOk(w, key, result)
  }

  function Waiters(callers: map<nat, Caller>): set<nat> {
    set id | id in callers && (callers[id].Waiting? || callers[id].Leaving?)
  }

  function Loaders(callers: map<nat, Caller>): set<nat> {
    set id | id in callers && callers[id].Loading?
  }

  ghost predicate FlightsDistinct(w: World) {
    forall j, k :: j in w.cache.flights && k in w.cache.flights && w.cache.flights[j] == w.cache.flights[k] ==> j == k
  }

  ghost predicate Counted(w: World, config: Config) {
    && w.cache.waiters == |Waiters(w.callers)| <= config.maxWaiters
    && |Loaders(w.callers)| == |w.cache.flights| <= config.maxConcurrent
  }

  ghost predicate Inv(w: World, config: Config) {
    && Stored(w.cache) && Bounded(w.cache, config)
    && Counted(w, config)
    && FlightsDistinct(w)
    && EntriesOk(w, config)
    && FlightsOk(w)
    && CallersOk(w)
    && (forall flight :: flight in w.ended ==> flight < w.started)
  }

  ghost predicate EntriesOk(w: World, config: Config) {
    forall k :: k in w.cache.entries ==> EntryOk(w, config, k)
  }

  ghost predicate FlightsOk(w: World) {
    forall k :: k in w.cache.flights ==> FlightOk(w, k)
  }

  ghost predicate CallersOk(w: World) {
    forall id :: id in w.callers ==> CallerOk(w, id)
  }

  // ---------------------------------------------------------------------------------------
  // Counting
  // ---------------------------------------------------------------------------------------

  predicate Occupies(c: Caller) {
    c.Waiting? || c.Leaving?
  }

  lemma CountWaiters(callers: map<nat, Caller>, id: nat, c: Caller)
    ensures |Waiters(callers[id := c])|
            == |Waiters(callers)| - (if id in callers && Occupies(callers[id]) then 1 else 0) + (if Occupies(c) then 1 else 0)
  {
    var others := Waiters(callers) - {id};
    assert Waiters(callers[id := c]) == if Occupies(c) then others + {id} else others;
    assert Waiters(callers) == if id in callers && Occupies(callers[id]) then others + {id} else others;
  }

  lemma CountLoaders(callers: map<nat, Caller>, id: nat, c: Caller)
    ensures |Loaders(callers[id := c])|
            == |Loaders(callers)| - (if id in callers && callers[id].Loading? then 1 else 0) + (if c.Loading? then 1 else 0)
  {
    var others := Loaders(callers) - {id};
    assert Loaders(callers[id := c]) == if c.Loading? then others + {id} else others;
    assert Loaders(callers) == if id in callers && callers[id].Loading? then others + {id} else others;
  }

  // ---------------------------------------------------------------------------------------
  // Steps
  // ---------------------------------------------------------------------------------------

  /** More loads being over spoils no result already given. */
  lemma ResultStays(w: World, w': World, key: string, result: Result)
    requires ResultOk(w, key, result)
    requires forall f :: f in w.ended ==> f in w'.ended && w'.ended[f] == w.ended[f]
    ensures ResultOk(w', key, result)
  {
    if result.Cached? {
      var flight :| Gave(w, flight, key, Some(result.outcome));
      assert Gave(w', flight, key, Some(result.outcome));
    }
  }

  lemma EntryStays(w: World, w': World, config: Config, key: string)
    requires key in w.cache.entries && EntryOk(w, config, key)
    requires key in w'.cache.entries && w'.cache.entries[key] == w.cache.entries[key] && key !in w'.cache.flights
    requires forall f :: f in w.ended ==> f in w'.ended && w'.ended[f] == w.ended[f]
    ensures EntryOk(w', config, key)
  {
    var flight :| LoadedBy(w, config, w.cache.entries[key], flight);
    assert LoadedBy(w', config, w'.cache.entries[key], flight);
  }

  lemma FlightStays(w: World, w': World, key: string)
    requires key in w.cache.flights && FlightOk(w, key) && InFlight(w', key, w.cache.flights[key])
    requires w.started <= w'.started && w.cache.flights[key] !in w'.ended
    requires forall id :: Leads(w, id, key) ==> Leads(w', id, key)
    ensures FlightOk(w', key)
  {
    var leader :| Leads(w, leader, key);
    assert Leads(w', leader, key);
  }

  /** A step of one caller that touches neither entries nor flights. */
  lemma CallerMoves(w: World, w': World, config: Config, id: nat, c: Caller)
    requires Inv(w, config)
    requires w'.callers == w.callers[id := c] && w'.ended == w.ended && w'.started == w.started
    requires w'.cache == w.cache.(waiters := w'.cache.waiters)
    requires w'.cache.waiters - w.cache.waiters == |Waiters(w'.callers)| - |Waiters(w.callers)|
    requires |Waiters(w'.callers)| <= config.maxWaiters
    requires (id in w.callers ==> !w.callers[id].Loading?) && !c.Loading?
    requires CallerOk(w', id)
    ensures Inv(w', config)
  {
    CountLoaders(w.callers, id, c);
    MovedEntries(w, w', config);
    MovedFlights(w, w', id, c);
    forall other | other in w'.callers && other != id ensures CallerOk(w', other) {
      assert CallerOk(w, other);
      MovedCaller(w, w', id, c, other);
    }
  }

  lemma MovedEntries(w: World, w': World, config: Config)
    requires EntriesOk(w, config)
    requires w'.cache.entries == w.cache.entries && w'.cache.flights == w.cache.flights && w'.ended == w.ended
    ensures EntriesOk(w', config)
  {
    forall k | k in w'.cache.entries ensures EntryOk(w', config, k) {
      EntryStays(w, w', config, k);
    }
  }

  lemma MovedFlights(w: World, w': World, id: nat, c: Caller)
    requires FlightsOk(w) && w'.cache.flights == w.cache.flights && w'.ended == w.ended && w'.started == w.started
    requires w'.callers == w.callers[id := c] && (id in w.callers ==> !w.callers[id].Loading?) && !c.Loading?
    ensures FlightsOk(w')
  {
    forall k | k in w'.cache.flights ensures FlightOk(w', k) {
      FlightStays(w, w', k);
    }
  }

  lemma MovedCaller(w: World, w': World, id: nat, c: Caller, other: nat)
    requires w'.callers == w.callers[id := c] && w'.ended == w.ended && w'.cache.flights == w.cache.flights
    requires (id in w.callers ==> !w.callers[id].Loading?) && !c.Loading?
    requires other in w.callers && other != id && CallerOk(w, other)
    ensures CallerOk(w', other)
  {
    match w.callers[other]
    case Leaving(key, _, result) => ResultStays(w, w', key, result);
    case Done(key, result) => ResultStays(w, w', key, result);
    case Loading(key, _) =>
      forall x | Leads(w', x, key) ensures x == other {
        assert Leads(w, x, key);
      }
    case _ =>
  }

  /** Reordering the list or losing entries from it. */
  lemma CacheShrinks(w: World, c: Cache, config: Config)
    requires Inv(w, config) && Stored(c) && Bounded(c, config)
    requires c.flights == w.cache.flights && c.waiters == w.cache.waiters
    requires forall k :: k in c.entries ==> k in w.cache.entries && c.entries[k] == w.cache.entries[k]
    ensures Inv(w.(cache := c), config)
  {
    var w' := w.(cache := c);
    forall k | k in c.entries ensures EntryOk(w', config, k) {
      EntryStays(w, w', config, k);
    }
    forall k | k in c.flights ensures FlightOk(w', k) {
      FlightStays(w, w', k);
    }
    forall id | id in w.callers ensures CallerOk(w', id) {
      assert CallerOk(w, id);
      match w.callers[id]
      case Leaving(key, _, result) => ResultStays(w, w', key, result);
      case Done(key, result) => ResultStays(w, w', key, result);
      case Loading(key, _) =>
        forall x | Leads(w', x, key) ensures x == id {
          assert Leads(w, x, key);
        }
      case _ =>
    }
  }

  ghost function Led(w: World, id: nat, key: string): World {
    w.(cache := w.cache.(flights := w.cache.flights[key := w.started]),
       callers := w.callers[id := Loading(key, w.started)], started := w.started + 1)
  }

  lemma LeadStarts(w: World, config: Config, id: nat, key: string)
    requires Inv(w, config) && id in w.callers && w.callers[id] == Start(key)
    requires key !in w.cache.flights && key !in w.cache.entries && |w.cache.flights| < config.maxConcurrent
    ensures Inv(Led(w, id, key), config)
  {
    CountLoaders(w.callers, id, Loading(key, w.started));
    CountWaiters(w.callers, id, Loading(key, w.started));
    assert Led(w, id, key).cache.flights.Keys == w.cache.flights.Keys + {key};
    LeadEntries(w, config, id, key);
    LeadFlights(w, id, key);
    LeadCallers(w, id, key);
  }

  lemma LeadEntries(w: World, config: Config, id: nat, key: string)
    requires EntriesOk(w, config) && key !in w.cache.entries
    ensures EntriesOk(Led(w, id, key), config)
  {
    forall k | k in w.cache.entries ensures EntryOk(Led(w, id, key), config, k) {
      EntryStays(w, Led(w, id, key), config, k);
    }
  }

  lemma LeadFlights(w: World, id: nat, key: string)
    requires FlightsOk(w) && FlightsDistinct(w) && id in w.callers && w.callers[id] == Start(key)
    requires key !in w.cache.flights && w.started !in w.ended
    ensures FlightsOk(Led(w, id, key)) && FlightsDistinct(Led(w, id, key))
  {
    var w' := Led(w, id, key);
    assert Leads(w', id, key);
    forall k | k in w'.cache.flights ensures FlightOk(w', k) {
      if k != key {
        FlightStays(w, w', k);
      }
    }
    forall k | k in w.cache.flights ensures w.cache.flights[k] < w.started {
      assert FlightOk(w, k);
    }
  }

  lemma LeadCallers(w: World, id: nat, key: string)
    requires CallersOk(w) && key !in w.cache.flights
    ensures CallersOk(Led(w, id, key))
  {
    var w' := Led(w, id, key);
    forall x | Leads(w', x, key) ensures x == id {
      assert x != id ==> CallerOk(w, x);
    }
    forall other | other in w'.callers && other != id ensures CallerOk(w', other) {
      LeadKeepsCaller(w, w', id, other, key);
    }
  }

  lemma LeadKeepsCaller(w: World, w': World, id: nat, other: nat, key: string)
    requires key !in w.cache.flights && w'.cache.flights == w.cache.flights[key := w.started]
    requires w'.callers == w.callers[id := Loading(key, w.started)] && w'.ended == w.ended
    requires other in w.callers && other != id && CallerOk(w, other)
    ensures CallerOk(w', other)
  {
    match w.callers[other]
    case Leaving(k, _, result) => ResultStays(w, w', k, result);
    case Done(k, result) => ResultStays(w, w', k, result);
    case Loading(k, _) =>
      forall x | Leads(w', x, k) ensures x == other {
        assert Leads(w, x, k);
      }
    case _ =>
  }

  lemma EntryKeyed(c: Cache, key: string)
    requires Stored(c)
    ensures key in c.entries ==> c.entries[key].key == key
  {
    AgreeMeans(c.entries, c.lru);
  }

  /** Serving a fresh entry. */
  lemma HitKeepsInv(w: World, config: Config, id: nat, e: Entry)
    requires Inv(w, config) && id in w.callers && w.callers[id] == Start(e.key)
    requires e.key in w.cache.entries && w.cache.entries[e.key] == e
    ensures Inv(w.(cache := w.cache.(lru := [e] + Without(w.cache.lru, e)),
                   callers := w.callers[id := Done(e.key, Cached(e.outcome))]), config)
  {
    assert EntryOk(w, config, e.key);
    var flight :| LoadedBy(w, config, e, flight);
    MoveToFrontStored(w.cache, e);
    var w1 := w.(cache := w.cache.(lru := [e] + Without(w.cache.lru, e)));
    CacheShrinks(w, w1.cache, config);
    var served := Done(e.key, Cached(e.outcome));
    var w' := w1.(callers := w1.callers[id := served]);
    CountWaiters(w1.callers, id, served);
    assert Gave(w', flight, e.key, Some(e.outcome));
    CallerMoves(w1, w', config, id, served);
  }

  lemma StaleKeepsInv(w: World, config: Config, key: string)
    requires Inv(w, config) && key in w.cache.entries && w.cache.entries[key].key == key
    ensures Inv(w.(cache := Evict(w.cache, w.cache.entries[key])), config)
  {
    EvictStored(w.cache, w.cache.entries[key]);
    CacheShrinks(w, Evict(w.cache, w.cache.entries[key]), config);
  }

  lemma EnterStale(w: World, config: Config, id: nat, key: string, now: int)
    requires key in w.cache.entries && w.cache.entries[key].key == key && w.cache.entries[key].expiresAt <= now
    ensures Entering(w, config, id, key, now)
            == Entering(w.(cache := Evict(w.cache, w.cache.entries[key])), config, id, key, now)
  {}

  lemma EnterKeepsInv(w: World, config: Config, id: nat, now: int)
    requires Inv(w, config) && id in w.callers && w.callers[id].Start?
    ensures Inv(Entering(w, config, id, w.callers[id].key, now), config)
  {
    var key, c := w.callers[id].key, w.cache;
    EntryKeyed(c, key);
    if key in c.entries && now < c.entries[key].expiresAt {
      HitKeepsInv(w, config, id, c.entries[key]);
    } else if key in c.entries {
      StaleKeepsInv(w, config, key);
      EnterStale(w, config, id, key, now);
      EnterMissKeepsInv(w.(cache := Evict(c, c.entries[key])), config, id, now);
    } else {
      EnterMissKeepsInv(w, config, id, now);
    }
  }

  /** Entering when the key is not cached. */
  lemma EnterMissKeepsInv(w: World, config: Config, id: nat, now: int)
    requires Inv(w, config) && id in w.callers && w.callers[id].Start? && w.callers[id].key !in w.cache.entries
    ensures Inv(Entering(w, config, id, w.callers[id].key, now), config)
  {
    var key, c := w.callers[id].key, w.cache;
    var w' := Entering(w, config, id, key, now);
    if key in c.flights && c.waiters < config.maxWaiters {
      JoinKeepsInv(w, config, id, key);
    } else if key !in c.flights && |c.flights| < config.maxConcurrent {
      LeadStarts(w, config, id, key);
    } else {
      BusyKeepsInv(w, config, id, key);
    }
  }

  lemma JoinKeepsInv(w: World, config: Config, id: nat, key: string)
    requires Inv(w, config) && id in w.callers && w.callers[id] == Start(key)
    requires key in w.cache.flights && w.cache.waiters < config.maxWaiters
    ensures var waiting := Waiting(key, w.cache.flights[key]);
            Inv(w.(cache := w.cache.(waiters := w.cache.waiters + 1), callers := w.callers[id := waiting]), config)
  {
    var waiting := Waiting(key, w.cache.flights[key]);
    CountWaiters(w.callers, id, waiting);
    CallerMoves(w, w.(cache := w.cache.(waiters := w.cache.waiters + 1), callers := w.callers[id := waiting]), config, id, waiting);
  }

  lemma BusyKeepsInv(w: World, config: Config, id: nat, key: string)
    requires Inv(w, config) && id in w.callers && w.callers[id] == Start(key)
    ensures Inv(w.(callers := w.callers[id := Done(key, TooBusy)]), config)
  {
    CountWaiters(w.callers, id, Done(key, TooBusy));
    CallerMoves(w, w.(callers := w.callers[id := Done(key, TooBusy)]), config, id, Done(key, TooBusy));
  }

  /** The cache the leader's section leaves: bounded, and with at most its own key added. */
  lemma SettleStored(c: Cache, config: Config, key: string, loaded: Option<Outcome>, now: int)
    requires Stored(c) && Bounded(c, config) && key !in c.entries && config.maxEntries > 0
    ensures
      var c' := SettleStep(c, config, key, loaded, now);
      && Stored(c') && Bounded(c', config) && c'.flights == c.flights - {key} && c'.waiters == c.waiters
      && (forall k :: k in c'.entries && k != key ==> k in c.entries && c'.entries[k] == c.entries[k])
      && (key in c'.entries ==> loaded.Some? && Cacheable(loaded.value, config)
                                && c'.entries[key] == Entry(key, loaded.value, now + Ttl(loaded.value)))
  {
    if loaded.Some? && Cacheable(loaded.value, config) {
      var n := InsertKeepsLongestPrefix(c, config, key, loaded.value, now);
    }
  }

  /** The caller that settles is no longer loading, and its flight is no longer counted. */
  lemma SettleCounts(w: World, config: Config, id: nat, loaded: Option<Outcome>, now: int)
    requires Counted(w, config) && id in w.callers && w.callers[id].Loading? && w.callers[id].key in w.cache.flights
    requires var c' := SettleStep(w.cache, config, w.callers[id].key, loaded, now);
             c'.flights == w.cache.flights - {w.callers[id].key} && c'.waiters == w.cache.waiters
    ensures Counted(Settling(w, config, id, w.callers[id].key, w.callers[id].flight, loaded, now), config)
  {
    var Loading(key, flight) := w.callers[id];
    var w' := Settling(w, config, id, key, flight, loaded, now);
    CountLoaders(w.callers, id, w'.callers[id]);
    CountWaiters(w.callers, id, w'.callers[id]);
    assert w'.cache.flights.Keys == w.cache.flights.Keys - {key};
  }

  lemma SettleKeepsInv(w: World, config: Config, id: nat, loaded: Option<Outcome>, now: int)
    requires Inv(w, config) && config.maxEntries > 0 && id in w.callers && w.callers[id].Loading?
    ensures Inv(Settling(w, config, id, w.callers[id].key, w.callers[id].flight, loaded, now), config)
  {
    var Loading(key, flight) := w.callers[id];
    var w' := Settling(w, config, id, key, flight, loaded, now);
    assert CallerOk(w, id) && FlightOk(w, key);
    assert key in w.cache.entries ==> EntryOk(w, config, key);
    SettleStored(w.cache, config, key, loaded, now);
    SettleCounts(w, config, id, loaded, now);
    SettleEntries(w, config, id, loaded, now);
    SettleFlights(w, config, id, loaded, now);
    SettleCallers(w, config, id, loaded, now);
  }

  lemma SettleCallers(w: World, config: Config, id: nat, loaded: Option<Outcome>, now: int)
    requires CallersOk(w) && id in w.callers && w.callers[id].Loading?
    requires w.callers[id].key in w.cache.flights && FlightOk(w, w.callers[id].key)
    requires SettleStep(w.cache, config, w.callers[id].key, loaded, now).flights == w.cache.flights - {w.callers[id].key}
    ensures CallersOk(Settling(w, config, id, w.callers[id].key, w.callers[id].flight, loaded, now))
  {
    var w' := Settling(w, config, id, w.callers[id].key, w.callers[id].flight, loaded, now);
    assert CallerOk(w, id);
    forall other | other in w'.callers && other != id ensures CallerOk(w', other) {
      SettleKeepsCaller(w, w', config, id, other, loaded, now);
    }
  }

  lemma SettleEntries(w: World, config: Config, id: nat, loaded: Option<Outcome>, now: int)
    requires Stored(w.cache) && Bounded(w.cache, config) && EntriesOk(w, config) && config.maxEntries > 0
    requires id in w.callers && w.callers[id].Loading? && w.callers[id].key !in w.cache.entries
    requires w.callers[id].flight !in w.ended
    ensures EntriesOk(Settling(w, config, id, w.callers[id].key, w.callers[id].flight, loaded, now), config)
  {
    var Loading(key, flight) := w.callers[id];
    var w' := Settling(w, config, id, key, flight, loaded, now);
    SettleStored(w.cache, config, key, loaded, now);
    forall k | k in w'.cache.entries ensures EntryOk(w', config, k) {
      if k == key {
        assert LoadedBy(w', config, w'.cache.entries[k], flight);
      } else {
        EntryStays(w, w', config, k);
      }
    }
  }

  lemma SettleFlights(w: World, config: Config, id: nat, loaded: Option<Outcome>, now: int)
    requires FlightsOk(w) && FlightsDistinct(w) && id in w.callers && CallerOk(w, id) && w.callers[id].Loading?
    requires SettleStep(w.cache, config, w.callers[id].key, loaded, now).flights == w.cache.flights - {w.callers[id].key}
    ensures FlightsOk(Settling(w, config, id, w.callers[id].key, w.callers[id].flight, loaded, now))
    ensures FlightsDistinct(Settling(w, config, id, w.callers[id].key, w.callers[id].flight, loaded, now))
  {
    var w' := Settling(w, config, id, w.callers[id].key, w.callers[id].flight, loaded, now);
    forall k | k in w'.cache.flights ensures FlightOk(w', k) {
      FlightStays(w, w', k);
    }
  }

  /** A waiter of the flight that ends finds it among the ended ones; everyone else is as before. */
  lemma SettleKeepsCaller(w: World, w': World, config: Config, id: nat, other: nat, loaded: Option<Outcome>, now: int)
    requires id in w.callers && w.callers[id].Loading? && CallerOk(w, id)
    requires w.callers[id].key in w.cache.flights && FlightOk(w, w.callers[id].key)
    requires w' == Settling(w, config, id, w.callers[id].key, w.callers[id].flight, loaded, now)
    requires w'.cache.flights == w.cache.flights - {w.callers[id].key}
    requires other in w.callers && other != id && CallerOk(w, other)
    ensures CallerOk(w', other)
  {
    match w.callers[other]
    case Leaving(k, _, result) => ResultStays(w, w', k, result);
    case Done(k, result) => ResultStays(w, w', k, result);
    case Loading(k, _) =>
      assert Leads(w, other, k) && Leads(w, id, w.callers[id].key);
      forall x | Leads(w', x, k) ensures x == other {
        assert Leads(w, x, k);
      }
    case _ =>
  }

  lemma ArriveKeepsInv(w: World, config: Config, id: nat, key: string)
    requires Inv(w, config) && Enabled(w, Arrive(id, key))
    ensures Inv(Next(w, config, Arrive(id, key)), config)
  {
    MoveKeepsInv(w, Next(w, config, Arrive(id, key)), config, id);
  }

  lemma RefuseKeepsInv(w: World, config: Config, id: nat)
    requires Inv(w, config) && Enabled(w, RefuseDoneContext(id))
    ensures Inv(Next(w, config, RefuseDoneContext(id)), config)
  {
    MoveKeepsInv(w, Next(w, config, RefuseDoneContext(id)), config, id);
  }

  lemma WakeKeepsInv(w: World, config: Config, id: nat)
    requires Inv(w, config) && Enabled(w, Wake(id))
    ensures Inv(Next(w, config, Wake(id)), config)
  {
    assert CallerOk(w, id);
    assert FlightsOk(w);
    MoveKeepsInv(w, Next(w, config, Wake(id)), config, id);
  }

  lemma StopWaitingKeepsInv(w: World, config: Config, id: nat, timedOut: bool)
    requires Inv(w, config) && Enabled(w, StopWaiting(id, timedOut))
    ensures Inv(Next(w, config, StopWaiting(id, timedOut)), config)
  {
    MoveKeepsInv(w, Next(w, config, StopWaiting(id, timedOut)), config, id);
  }

  lemma LeaveKeepsInv(w: World, config: Config, id: nat)
    requires Inv(w, config) && Enabled(w, Leave(id))
    ensures Inv(Next(w, config, Leave(id)), config)
  {
    var w' := Next(w, config, Leave(id));
    assert CallerOk(w, id);
    ResultStays(w, w', w.callers[id].key, w.callers[id].result);
    MoveKeepsInv(w, w', config, id);
  }

  lemma NextKeepsInv(w: World, config: Config, a: Action)
    requires Inv(w, config) && config.maxEntries > 0 && Enabled(w, a)
    ensures Inv(Next(w, config, a), config)
  {
    match a
    case Enter(id, now) => EnterKeepsInv(w, config, id, now);
    case LoadReturns(id, outcome, now) => SettleKeepsInv(w, config, id, Some(outcome), now);
    case LoadPanics(id, now) => SettleKeepsInv(w, config, id, None, now);
    case Arrive(id, key) => ArriveKeepsInv(w, config, id, key);
    case RefuseDoneContext(id) => RefuseKeepsInv(w, config, id);
    case Wake(id) => WakeKeepsInv(w, config, id);
    case StopWaiting(id, timedOut) => StopWaitingKeepsInv(w, config, id, timedOut);
    case Leave(id) => LeaveKeepsInv(w, config, id);
  }

  /** The remaining actions: one caller moves on, and at most gives its place back. */
  lemma MoveKeepsInv(w: World, w': World, config: Config, id: nat)
    requires Inv(w, config) && id in w'.callers && w'.callers == w.callers[id := w'.callers[id]]
    requires w'.ended == w.ended && w'.started == w.started && CallerOk(w', id)
    requires w'.cache == w.cache.(waiters := w'.cache.waiters)
    requires (id in w.callers ==> !w.callers[id].Loading?) && !w'.callers[id].Loading?
    requires w'.cache.waiters == w.cache.waiters - (if id in w.callers && Occupies(w.callers[id]) then 1 else 0)
                                 + (if Occupies(w'.callers[id]) then 1 else 0)
    requires Occupies(w'.callers[id]) ==> id in w.callers && Occupies(w.callers[id])
    ensures Inv(w', config)
  {
    CountWaiters(w.callers, id, w'.callers[id]);
    CallerMoves(w, w', config, id, w'.callers[id]);
  }

  /** The invariant holds in every reachable state. */
  lemma {:induction false} InvAlways(config: Config, actions: seq<Action>)
    requires config.maxEntries > 0
    ensures Inv(Run(config, actions), config)
  {
    if actions != [] {
      var before := actions[..|actions| - 1];
      InvAlways(config, before);
      var w, a := Run(config, before), actions[|actions| - 1];
      if Enabled(w, a) {
        NextKeepsInv(w, config, a);
      }
    }
  }

  // ---------------------------------------------------------------------------------------
  // What it means
  // ---------------------------------------------------------------------------------------

  /** Entries, bytes, loads and waiters all stay within their limits, and are counted exactly. */
  lemma LimitsAlways(config: Config, actions: seq<Action>)
    requires config.maxEntries > 0
    ensures
      var w := Run(config, actions);
      var c := w.cache;
      && c.entries.Keys == (set e | e in c.lru :: e.key) && |c.entries| == |c.lru| <= config.maxEntries
      && c.bytes == Total(c.lru) <= config.maxBytes
      && c.waiters == |Waiters(w.callers)| <= config.maxWaiters
      && |Loaders(w.callers)| == |c.flights| <= config.maxConcurrent
      && c.entries.Keys !! c.flights.Keys
  {
    InvAlways(config, actions);
    var w := Run(config, actions);
    var c := w.cache;
    AgreeMeans(c.entries, c.lru);
    forall k | k in c.entries ensures k in (set e | e in c.lru :: e.key) && k !in c.flights {
      assert EntryOk(w, config, k);
      assert c.entries[k] in c.lru;
    }
  }

  /** Never two loads of one key at a time. */
  lemma SingleFlight(config: Config, actions: seq<Action>, i: nat, j: nat)
    requires config.maxEntries > 0
    requires var w := Run(config, actions); i in Loaders(w.callers) && j in Loaders(w.callers)
    requires Run(config, actions).callers[i].key == Run(config, actions).callers[j].key
    ensures i == j
  {
    InvAlways(config, actions);
    var w := Run(config, actions);
    assert CallerOk(w, i) && Leads(w, j, w.callers[j].key);
  }

  /** The value a caller came away with, if it came away with one. */
  ghost function Value(result: Result): Option<Outcome> {
    match result
    case Cached(outcome) => Some(outcome)
    case Loaded(_, outcome) => Some(outcome)
    case Shared(_, loaded) => loaded
    case _ => None
  }

  /** Every value returned was given by a load of the very key that was asked for. */
  lemma ValuesComeFromLoads(config: Config, actions: seq<Action>, id: nat)
    requires config.maxEntries > 0
    requires var w := Run(config, actions); id in w.callers && w.callers[id].Done? && Value(w.callers[id].result).Some?
    ensures
      var w := Run(config, actions);
      exists flight :: Gave(w, flight, w.callers[id].key, Value(w.callers[id].result))
  {
    InvAlways(config, actions);
    var w := Run(config, actions);
    assert CallerOk(w, id);
    var result := w.callers[id].result;
    match result
    case Cached(_) =>
    case Loaded(flight, outcome) => assert Gave(w, flight, w.callers[id].key, Some(outcome));
    case Shared(flight, loaded) => assert Gave(w, flight, w.callers[id].key, loaded);
    case _ =>
  }

  /** A waiter woken by a flight has the key and the value of that flight's leader. */
  lemma WaiterAgreesWithLeader(config: Config, actions: seq<Action>, waiter: nat, leader: nat)
    requires config.maxEntries > 0
    requires var w := Run(config, actions);
             && waiter in w.callers && w.callers[waiter].Done? && w.callers[waiter].result.Shared?
             && leader in w.callers && w.callers[leader].Done?
             && (w.callers[leader].result.Loaded? || w.callers[leader].result.Panicked?)
             && w.callers[leader].result.flight == w.callers[waiter].result.flight
    ensures var w := Run(config, actions);
            && w.callers[waiter].key == w.callers[leader].key
            && Value(w.callers[waiter].result) == Value(w.callers[leader].result)
  {
    InvAlways(config, actions);
    var w := Run(config, actions);
    assert CallerOk(w, waiter) && CallerOk(w, leader);
  }

  /** What the cache serves is still within its lifetime, and is never a cancellation. */
  lemma ServedWhileFresh(config: Config, actions: seq<Action>, id: nat, now: int) returns (flight: nat)
    requires config.maxEntries > 0
    requires var w := Run(config, actions);
             && Enabled(w, Enter(id, now))
             && EnterStep(w.cache, config, w.callers[id].key, w.started, now).1.Hit?
    ensures var w := Run(config, actions);
            var outcome := EnterStep(w.cache, config, w.callers[id].key, w.started, now).1.outcome;
            && Gave(w, flight, w.callers[id].key, Some(outcome))
            && now < w.ended[flight].at + (if outcome.err == None then 30 else 2)
            && outcome.err != Some(Canceled) && outcome.err != Some(DeadlineExceeded)
  {
    InvAlways(config, actions);
    var w := Run(config, actions);
    var key := w.callers[id].key;
    assert EntryOk(w, config, key);
    EntryKeyed(w.cache, key);
    flight :| LoadedBy(w, config, w.cache.entries[key], flight);
  }

  /**
   No flight is left behind: each one still registered has a leader that is still loading, so
   once all loaders have returned or panicked none is registered, and a waiter whose flight
   is over can always wake.
   */
  lemma FlightsAreReleased(config: Config, actions: seq<Action>)
    requires config.maxEntries > 0
    ensures var w := Run(config, actions);
            && (forall k :: k in w.cache.flights ==> exists id :: Leads(w, id, k))
            && (Loaders(w.callers) == {} ==> w.cache.flights == map[])
            && (forall id :: id in w.callers && w.callers[id].Waiting? ==>
                  Enabled(w, Wake(id)) || exists leader :: Leads(w, leader, w.callers[id].key))
  {
    InvAlways(config, actions);
    var w := Run(config, actions);
    forall k | k in w.cache.flights ensures exists id :: Leads(w, id, k) {
      assert FlightOk(w, k);
    }
    forall id | id in w.callers && w.callers[id].Waiting?
      ensures Enabled(w, Wake(id)) || exists leader :: Leads(w, leader, w.callers[id].key)
    {
      assert CallerOk(w, id);
    }
    if Loaders(w.callers) == {} {
      assert |w.cache.flights| == 0;
    }
  }

  /** The step itself: returning or panicking, the leader's section takes its flight off the table. */
  lemma SettlingReleases(w: World, config: Config, id: nat, loaded: Option<Outcome>, now: int)
    requires Inv(w, config) && config.maxEntries > 0 && id in w.callers && w.callers[id].Loading?
    ensures
      var Loading(key, flight) := w.callers[id];
      var w' := Settling(w, config, id, key, flight, loaded, now);
      key !in w'.cache.flights && flight in w'.ended && |w'.cache.flights| == |w.cache.flights| - 1
  {
    assert CallerOk(w, id);
    var key := w.callers[id].key;
    assert key in w.cache.entries ==> EntryOk(w, config, key);
    SettleStored(w.cache, config, key, loaded, now);
    assert (w.cache.flights - {key}).Keys == w.cache.flights.Keys - {key};
  }
}
