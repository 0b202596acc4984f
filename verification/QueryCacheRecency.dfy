/**
 The cache by its history: which key was used when, so that the list is the keys by their last use;
 what is in it; and what each caller is answered.
 */
module QueryCacheRecency {
  import opened Options
  import opened QueryCacheModel
  import opened QueryCacheStore
  import opened QueryCacheTheorems

  /** What may be kept: a body within the byte limit that is not the outcome of a cancellation. */
  predicate Keepable(outcome: Outcome, config: Config) {
    |outcome.body| <= config.maxBytes && outcome.err != Some(Canceled) && outcome.err != Some(DeadlineExceeded)
  }

  /** How long an outcome is served, in seconds. */
  function Lifetime(outcome: Outcome): int {
    if outcome.err == None then 30 else 2
  }

  /** The action stores an outcome for the key. */
  ghost predicate Stores(w: World, config: Config, a: Action, key: string) {
    Enabled(w, a) && a.LoadReturns? && w.callers[a.id].key == key && Keepable(a.outcome, config)
  }

  /** The action answers a caller from the cache. */
  ghost predicate Serves(w: World, config: Config, a: Action, key: string) {
    && Enabled(w, a) && a.Enter? && w.callers[a.id].key == key
    && Next(w, config, a).callers[a.id].Done? && Next(w, config, a).callers[a.id].result.Cached?
  }

  /** The position in the run of a key's last use, by being stored or served; -1 if there is none. */
  ghost function LastUse(config: Config, actions: seq<Action>, key: string): (n: int)
    ensures -1 <= n < |actions|
    decreases |actions|
  {
    if actions == [] then -1
    else
      var before, a := actions[..|actions| - 1], actions[|actions| - 1];
      if Stores(Run(config, before), config, a, key) || Serves(Run(config, before), config, a, key) then |actions| - 1
      else LastUse(config, before, key)
  }

  // ---------------------------------------------------------------------------------------
  // Lists in order of use
  // ---------------------------------------------------------------------------------------

  /** The keys of the list were used, each before the one in front of it, and all before `bound`. */
  ghost predicate Below(list: seq<Entry>, use: string -> int, bound: int) {
    list == [] || (0 <= use(list[0].key) < bound && Below(list[1..], use, use(list[0].key)))
  }

  lemma BelowLater(list: seq<Entry>, use: string -> int, bound: int, later: int)
    requires Below(list, use, bound) && bound <= later
    ensures Below(list, use, later)
  {}

  lemma {:induction false} WithoutBelow(list: seq<Entry>, e: Entry, use: string -> int, bound: int)
    requires Below(list, use, bound)
    ensures Below(Without(list, e), use, bound)
  {
    if list != [] {
      WithoutBelow(list[1..], e, use, use(list[0].key));
      if list[0] == e {
        BelowLater(Without(list[1..], e), use, use(list[0].key), bound);
      }
    }
  }

  lemma {:induction false} PrefixBelow(list: seq<Entry>, n: nat, use: string -> int, bound: int)
    requires Below(list, use, bound) && n <= |list|
    ensures Below(list[..n], use, bound)
  {
    if n > 0 {
      PrefixBelow(list[1..], n - 1, use, use(list[0].key));
      assert list[..n][1..] == list[1..][..n - 1];
    }
  }

  lemma {:induction false} SameUseBelow(list: seq<Entry>, use: string -> int, use': string -> int, bound: int)
    requires Below(list, use, bound) && forall i :: 0 <= i < |list| ==> use'(list[i].key) == use(list[i].key)
    ensures Below(list, use', bound)
  {
    if list != [] {
      assert forall i :: 0 <= i < |list| - 1 ==> list[1..][i] == list[i + 1];
      SameUseBelow(list[1..], use, use', use(list[0].key));
    }
  }

  lemma {:induction false} BelowDescends(list: seq<Entry>, use: string -> int, bound: int, i: nat, j: nat)
    requires Below(list, use, bound) && i < |list| && j < |list|
    ensures 0 <= use(list[i].key) < bound && (i < j ==> use(list[j].key) < use(list[i].key))
  {
    if i > 0 {
      BelowDescends(list[1..], use, use(list[0].key), i - 1, if j > 0 then j - 1 else 0);
    } else if j > 0 {
      BelowDescends(list[1..], use, use(list[0].key), j - 1, j - 1);
    }
  }

  /** A key that has just been used, put in front of a list in which it is not. */
  lemma FrontBelow(e: Entry, list: seq<Entry>, use: string -> int, use': string -> int, now: nat)
    requires Below(list, use, now) && use'(e.key) == now
    requires forall i :: 0 <= i < |list| ==> list[i].key != e.key && use'(list[i].key) == use(list[i].key)
    ensures Below([e] + list, use', now + 1)
  {
    SameUseBelow(list, use, use', now);
    assert ([e] + list)[1..] == list;
  }

  // ---------------------------------------------------------------------------------------
  // Steps of the cache
  // ---------------------------------------------------------------------------------------

  lemma EnterCache(w: World, config: Config, id: nat, now: int)
    requires Enabled(w, Enter(id, now))
    ensures Next(w, config, Enter(id, now)).cache == EnterStep(w.cache, config, w.callers[id].key, w.started, now).0
  {
    EnteringCache(w, config, id, w.callers[id].key, now);
  }

  lemma EnteringCache(w: World, config: Config, id: nat, key: string, now: int)
    ensures Entering(w, config, id, key, now).cache == EnterStep(w.cache, config, key, w.started, now).0
  {
    match EnterStep(w.cache, config, key, w.started, now).1
    case Hit(_) =>
    case Busy =>
    case Join(_) =>
    case Lead =>
  }

  lemma SettleCache(w: World, config: Config, id: nat, outcome: Outcome, now: int)
    requires Enabled(w, LoadReturns(id, outcome, now))
    ensures Next(w, config, LoadReturns(id, outcome, now)).cache == SettleStep(w.cache, config, w.callers[id].key, Some(outcome), now)
  {}

  /** The other actions, and a load that may not be kept, leave the entries and the list alone. */
  lemma OtherCache(w: World, config: Config, a: Action)
    requires Enabled(w, a) && !a.Enter? && !(a.LoadReturns? && Keepable(a.outcome, config))
    ensures Next(w, config, a).cache.lru == w.cache.lru && Next(w, config, a).cache.entries == w.cache.entries
  {}

  /** An entry is served exactly when it is there and has not expired; only then is the key used. */
  lemma ServesExactly(w: World, config: Config, id: nat, now: int, key: string)
    requires Enabled(w, Enter(id, now))
    ensures Serves(w, config, Enter(id, now), key) <==>
              w.callers[id].key == key && key in w.cache.entries && now < w.cache.entries[key].expiresAt
  {}

  lemma WithoutKey(entries: map<string, Entry>, list: seq<Entry>, e: Entry, i: nat)
    requires Agree(entries, list) && e.key in entries && entries[e.key] == e && i < |Without(list, e)|
    ensures Without(list, e)[i].key != e.key
  {
    WithoutAgrees(entries, list, e);
    AgreeMembers(entries - {e.key}, Without(list, e), Without(list, e)[i]);
  }

  /** The uses after one more action, as a function. */
  ghost function UseOf(config: Config, actions: seq<Action>): string -> int {
    key => LastUse(config, actions, key)
  }

  lemma UsedNow(config: Config, actions: seq<Action>, a: Action, key: string)
    ensures var w := Run(config, actions);
            LastUse(config, actions + [a], key) ==
            if Stores(w, config, a, key) || Serves(w, config, a, key) then |actions| else LastUse(config, actions, key)
  {
    assert (actions + [a])[..|actions|] == actions;
  }

  lemma RunStep(config: Config, actions: seq<Action>, a: Action)
    ensures var w := Run(config, actions); Run(config, actions + [a]) == if Enabled(w, a) then Next(w, config, a) else w
  {
    assert (actions + [a])[..|actions|] == actions;
  }

  ghost predicate InUseOrder(config: Config, actions: seq<Action>) {
    Below(Run(config, actions).cache.lru, UseOf(config, actions), |actions|)
  }

  /** A key that is served moves to the front. */
  lemma HitKeepsOrder(config: Config, actions: seq<Action>, id: nat, now: int)
    requires InUseOrder(config, actions)
    requires var w := Run(config, actions);
             && Inv(w, config) && Enabled(w, Enter(id, now)) && Serves(w, config, Enter(id, now), w.callers[id].key)
    ensures InUseOrder(config, actions + [Enter(id, now)])
  {
    var w, a := Run(config, actions), Enter(id, now);
    var key := w.callers[id].key;
    ServesExactly(w, config, id, now, key);
    EntryKeyed(w.cache, key);
    var e := w.cache.entries[key];
    var rest := Without(w.cache.lru, e);
    RunStep(config, actions, a);
    UsedNow(config, actions, a, key);
    WithoutBelow(w.cache.lru, e, UseOf(config, actions), |actions|);
    forall i | 0 <= i < |rest|
      ensures rest[i].key != e.key && LastUse(config, actions + [a], rest[i].key) == LastUse(config, actions, rest[i].key)
    {
      WithoutKey(w.cache.entries, w.cache.lru, e, i);
      UsedNow(config, actions, a, rest[i].key);
    }
    FrontBelow(e, rest, UseOf(config, actions), UseOf(config, actions + [a]), |actions|);
  }

  /** Nothing is used, and the list loses entries or none. */
  lemma LossKeepsOrder(config: Config, actions: seq<Action>, a: Action, list: seq<Entry>)
    requires Below(list, UseOf(config, actions), |actions|)
    requires var w := Run(config, actions);
             Run(config, actions + [a]).cache.lru == list && forall key :: !Stores(w, config, a, key) && !Serves(w, config, a, key)
    ensures InUseOrder(config, actions + [a])
  {
    forall i | 0 <= i < |list| ensures LastUse(config, actions + [a], list[i].key) == LastUse(config, actions, list[i].key) {
      UsedNow(config, actions, a, list[i].key);
    }
    SameUseBelow(list, UseOf(config, actions), UseOf(config, actions + [a]), |actions|);
    BelowLater(list, UseOf(config, actions + [a]), |actions|, |actions| + 1);
  }

  /** A miss takes an expired entry of the key out, and no other. */
  lemma MissList(c: Cache, config: Config, key: string, flight: nat, now: int)
    requires key in c.entries ==> c.entries[key].key == key && c.entries[key].expiresAt <= now
    ensures var c' := EnterStep(c, config, key, flight, now).0;
            && c'.entries == c.entries - {key}
            && c'.lru == if key in c.entries then Without(c.lru, c.entries[key]) else c.lru
  {
    var c1 := if key in c.entries then Evict(c, c.entries[key]) else c;
    MissLists(c1, config, key, flight);
    assert key !in c.entries ==> c.entries - {key} == c.entries;
  }

  lemma MissLists(c: Cache, config: Config, key: string, flight: nat)
    ensures MissStep(c, config, key, flight).0.entries == c.entries && MissStep(c, config, key, flight).0.lru == c.lru
  {}

  lemma MissKeepsOrder(config: Config, actions: seq<Action>, id: nat, now: int)
    requires InUseOrder(config, actions)
    requires var w := Run(config, actions);
             && Inv(w, config) && Enabled(w, Enter(id, now)) && !Serves(w, config, Enter(id, now), w.callers[id].key)
    ensures InUseOrder(config, actions + [Enter(id, now)])
  {
    var w, a := Run(config, actions), Enter(id, now);
    var key := w.callers[id].key;
    ServesExactly(w, config, id, now, key);
    EntryKeyed(w.cache, key);
    RunStep(config, actions, a);
    EnterCache(w, config, id, now);
    MissList(w.cache, config, key, w.started, now);
    if key in w.cache.entries {
      var e := w.cache.entries[key];
      WithoutBelow(w.cache.lru, e, UseOf(config, actions), |actions|);
      LossKeepsOrder(config, actions, a, Without(w.cache.lru, e));
    } else {
      LossKeepsOrder(config, actions, a, w.cache.lru);
    }
  }

  /** A key that is stored was not in the list, and goes in front of what is kept of it. */
  lemma StoreKeepsOrder(config: Config, actions: seq<Action>, id: nat, outcome: Outcome, now: int)
    requires InUseOrder(config, actions) && config.maxEntries > 0
    requires var w := Run(config, actions);
             && Inv(w, config) && Enabled(w, LoadReturns(id, outcome, now)) && Keepable(outcome, config)
    ensures InUseOrder(config, actions + [LoadReturns(id, outcome, now)])
  {
    var w, a := Run(config, actions), LoadReturns(id, outcome, now);
    var key := w.callers[id].key;
    LoadingIsNotCached(w, config, id);
    var n := InsertKeepsLongestPrefix(w.cache, config, key, outcome, now);
    var e, rest := Entry(key, outcome, now + Ttl(outcome)), w.cache.lru[..n];
    RunStep(config, actions, a);
    SettleCache(w, config, id, outcome, now);
    UsedNow(config, actions, a, key);
    PrefixBelow(w.cache.lru, n, UseOf(config, actions), |actions|);
    forall i | 0 <= i < |rest|
      ensures rest[i].key != key && LastUse(config, actions + [a], rest[i].key) == LastUse(config, actions, rest[i].key)
    {
      AgreeMembers(w.cache.entries, w.cache.lru, rest[i]);
      UsedNow(config, actions, a, rest[i].key);
    }
    FrontBelow(e, rest, UseOf(config, actions), UseOf(config, actions + [a]), |actions|);
  }

  lemma LoadingIsNotCached(w: World, config: Config, id: nat)
    requires Inv(w, config) && id in w.callers && w.callers[id].Loading?
    ensures w.callers[id].key in w.cache.flights && w.callers[id].key !in w.cache.entries
  {
    assert CallerOk(w, id);
    assert w.callers[id].key in w.cache.entries ==> EntryOk(w, config, w.callers[id].key);
  }

  lemma ActionKeepsOrder(config: Config, actions: seq<Action>, a: Action)
    requires InUseOrder(config, actions) && config.maxEntries > 0 && Inv(Run(config, actions), config)
    ensures InUseOrder(config, actions + [a])
  {
    var w := Run(config, actions);
    RunStep(config, actions, a);
    if Enabled(w, a) && a.Enter? {
      if Serves(w, config, a, w.callers[a.id].key) {
        HitKeepsOrder(config, actions, a.id, a.now);
      } else {
        MissKeepsOrder(config, actions, a.id, a.now);
      }
    } else if Enabled(w, a) && a.LoadReturns? && Keepable(a.outcome, config) {
      StoreKeepsOrder(config, actions, a.id, a.outcome, a.now);
    } else {
      if Enabled(w, a) {
        OtherCache(w, config, a);
      }
      LossKeepsOrder(config, actions, a, w.cache.lru);
    }
  }

  lemma {:induction false} OrderAlways(config: Config, actions: seq<Action>)
    requires config.maxEntries > 0
    ensures InUseOrder(config, actions)
    decreases |actions|
  {
    if actions != [] {
      var before, a := actions[..|actions| - 1], actions[|actions| - 1];
      OrderAlways(config, before);
      InvAlways(config, before);
      ActionKeepsOrder(config, before, a);
      assert actions == before + [a];
    }
  }

  /** In every reachable state the list is the cached keys by their last use, the most recent first. */
  lemma ListIsByLastUse(config: Config, actions: seq<Action>, i: nat, j: nat)
    requires config.maxEntries > 0 && i < j < |Run(config, actions).cache.lru|
    ensures var lru := Run(config, actions).cache.lru;
            0 <= LastUse(config, actions, lru[j].key) < LastUse(config, actions, lru[i].key)
  {
    OrderAlways(config, actions);
    BelowDescends(Run(config, actions).cache.lru, UseOf(config, actions), |actions|, i, j);
    BelowDescends(Run(config, actions).cache.lru, UseOf(config, actions), |actions|, j, j);
  }

  // ---------------------------------------------------------------------------------------
  // What an insertion evicts
  // ---------------------------------------------------------------------------------------

  lemma {:induction false} TotalOfPrefix(list: seq<Entry>, m: nat, n: nat)
    requires m <= n <= |list|
    ensures Total(list[..m]) <= Total(list[..n])
  {
    if m > 0 {
      TotalOfPrefix(list[1..], m - 1, n - 1);
      assert list[..m][1..] == list[1..][..m - 1] && list[..n][1..] == list[1..][..n - 1];
    }
  }

  /** The keys of a list with a prefix of another behind a new one. */
  lemma PrefixKeys(lru: seq<Entry>, e: Entry, n: nat, p: nat)
    requires n <= |lru| && p < |lru| && lru[p].key != e.key
    requires forall i :: 0 <= i < |lru| && i != p ==> lru[i].key != lru[p].key
    ensures (exists i :: 0 <= i < |[e] + lru[..n]| && ([e] + lru[..n])[i].key == lru[p].key) <==> p < n
  {
    var list := [e] + lru[..n];
    assert forall i :: 0 < i < |list| ==> list[i] == lru[i - 1];
    if p < n {
      assert list[p + 1] == lru[p];
    }
  }

  /** The longest prefix that fits reaches just the positions that fit. */
  lemma LongestReaches(lru: seq<Entry>, config: Config, size: nat, n: nat, p: nat)
    requires n <= |lru| && p < |lru| && (n == 0 || Fits(lru, n, config, size))
    requires forall m :: n < m <= |lru| ==> !Fits(lru, m, config, size)
    ensures p < n <==> p + 1 < config.maxEntries && Total(lru[..p + 1]) + size <= config.maxBytes
  {
    if p < n {
      TotalOfPrefix(lru, p + 1, n);
    } else {
      assert !Fits(lru, p + 1, config, size);
    }
  }

  /**
   A cached key outlives an insertion exactly when the entries used no less recently, its own among
   them, leave room for the new one in number and in bytes.
   */
  lemma StaysExactly(w: World, config: Config, id: nat, outcome: Outcome, now: int, p: nat)
    requires Inv(w, config) && config.maxEntries > 0 && p < |w.cache.lru|
    requires Enabled(w, LoadReturns(id, outcome, now)) && Keepable(outcome, config)
    ensures w.cache.lru[p].key in Next(w, config, LoadReturns(id, outcome, now)).cache.entries <==>
              p + 1 < config.maxEntries && Total(w.cache.lru[..p + 1]) + |outcome.body| <= config.maxBytes
  {
    LoadingIsNotCached(w, config, id);
    SettleCache(w, config, id, outcome, now);
    StaysInCache(w.cache, config, w.callers[id].key, outcome, now, p);
  }

  lemma StaysInCache(c: Cache, config: Config, key: string, outcome: Outcome, now: int, p: nat)
    requires Stored(c) && key !in c.entries && config.maxEntries > 0 && p < |c.lru| && Keepable(outcome, config)
    ensures c.lru[p].key in Insert(c, config, key, outcome, now).entries <==>
              p + 1 < config.maxEntries && Total(c.lru[..p + 1]) + |outcome.body| <= config.maxBytes
  {
    var n := InsertKeepsLongestPrefix(c, config, key, outcome, now);
    AgreeMembers(c.entries, c.lru, c.lru[p]);
    AgreeDistinctAt(c.entries, c.lru, p);
    StoredKeys(Insert(c, config, key, outcome, now), c.lru[p].key);
    PrefixKeys(c.lru, Entry(key, outcome, now + Ttl(outcome)), n, p);
    LongestReaches(c.lru, config, |outcome.body|, n, p);
  }

  /** A key is cached exactly when the list has an entry of it. */
  lemma StoredKeys(c: Cache, key: string)
    requires Stored(c)
    ensures key in c.entries <==> exists i :: 0 <= i < |c.lru| && c.lru[i].key == key
  {
    AgreeMeans(c.entries, c.lru);
    if key in c.entries {
      assert c.entries[key] in c.lru;
    }
    if i :| 0 <= i < |c.lru| && c.lru[i].key == key {
      assert c.lru[i] in c.lru;
    }
  }

  lemma AgreeDistinctAt(entries: map<string, Entry>, list: seq<Entry>, p: nat)
    requires Agree(entries, list) && p < |list|
    ensures forall i :: 0 <= i < |list| && i != p ==> list[i].key != list[p].key
  {
    AgreeMeans(entries, list);
  }

  /** Of two cached keys, the one that an insertion evicts stands behind the one it keeps. */
  lemma GoneIsBehind(w: World, config: Config, a: Action, i: nat, j: nat)
    requires Inv(w, config) && config.maxEntries > 0 && Enabled(w, a) && a.LoadReturns? && i < |w.cache.lru| && j < |w.cache.lru|
    requires var c' := Next(w, config, a).cache; w.cache.lru[i].key in c'.entries && w.cache.lru[j].key !in c'.entries
    ensures i < j
  {
    if Keepable(a.outcome, config) {
      StaysExactly(w, config, a.id, a.outcome, a.now, i);
      StaysExactly(w, config, a.id, a.outcome, a.now, j);
      if j < i {
        TotalOfPrefix(w.cache.lru, j + 1, i + 1);
      }
    } else {
      OtherCache(w, config, a);
      StoredKeys(w.cache, w.cache.lru[j].key);
    }
  }

  /** So an insertion evicts the keys used least recently: none that goes was used after one that stays. */
  lemma EvictsLeastRecent(config: Config, actions: seq<Action>, a: Action, kept: string, gone: string)
    requires config.maxEntries > 0 && Enabled(Run(config, actions), a) && a.LoadReturns?
    requires var c, c' := Run(config, actions).cache, Run(config, actions + [a]).cache;
             kept in c.entries && gone in c.entries && kept in c'.entries && gone !in c'.entries
    ensures LastUse(config, actions, gone) < LastUse(config, actions, kept)
  {
    var w := Run(config, actions);
    InvAlways(config, actions);
    RunStep(config, actions, a);
    StoredKeys(w.cache, kept);
    StoredKeys(w.cache, gone);
    var i :| 0 <= i < |w.cache.lru| && w.cache.lru[i].key == kept;
    var j :| 0 <= j < |w.cache.lru| && w.cache.lru[j].key == gone;
    GoneIsBehind(w, config, a, i, j);
    ListIsByLastUse(config, actions, i, j);
  }

  // ---------------------------------------------------------------------------------------
  // What is cached, by history
  // ---------------------------------------------------------------------------------------

  ghost function RunTo(config: Config, actions: seq<Action>, n: nat): World
    requires n <= |actions|
  {
    Run(config, actions[..n])
  }

  lemma RunToStep(config: Config, actions: seq<Action>, n: nat)
    requires n < |actions|
    ensures var w := RunTo(config, actions, n);
            RunTo(config, actions, n + 1) == if Enabled(w, actions[n]) then Next(w, config, actions[n]) else w
  {
    assert actions[..n + 1][..n] == actions[..n];
  }

  /** The i-th action stores this outcome for the key, at this time. */
  ghost predicate StoredAt(config: Config, actions: seq<Action>, i: nat, key: string, outcome: Outcome, at: int)
    requires i < |actions|
  {
    Stores(RunTo(config, actions, i), config, actions[i], key) && actions[i].outcome == outcome && actions[i].now == at
  }

  /** The j-th action takes the key out of the cache. */
  ghost predicate LeavesAt(config: Config, actions: seq<Action>, j: nat, key: string)
    requires j < |actions|
  {
    key in RunTo(config, actions, j).cache.entries && key !in RunTo(config, actions, j + 1).cache.entries
  }

  /** The first `n` actions stored the outcome and did not take it out since. */
  ghost predicate Resident(config: Config, actions: seq<Action>, n: nat, key: string, outcome: Outcome, at: int)
    requires n <= |actions|
  {
    exists i: nat :: i < n && StoredAt(config, actions, i, key, outcome, at) && Undisturbed(config, actions, i + 1, n, key)
  }

  ghost predicate Undisturbed(config: Config, actions: seq<Action>, i: nat, n: nat, key: string)
    requires n <= |actions|
  {
    forall j :: i <= j < n ==> !LeavesAt(config, actions, j, key)
  }

  /** How one action changes what is cached under a key. */
  lemma EntryStep(w: World, config: Config, a: Action, key: string)
    requires Inv(w, config) && config.maxEntries > 0 && Enabled(w, a)
    ensures var before, after := w.cache.entries, Next(w, config, a).cache.entries;
            && (Stores(w, config, a, key) ==>
                  key !in before && key in after && after[key] == Entry(key, a.outcome, a.now + Lifetime(a.outcome)))
            && (!Stores(w, config, a, key) && key in after ==> key in before && after[key] == before[key])
  {
    if a.Enter? {
      EnterCache(w, config, a.id, a.now);
      EnterEntries(w.cache, config, w.callers[a.id].key, w.started, a.now);
      assert w.callers[a.id].key in w.cache.entries ==> w.cache.entries[w.callers[a.id].key].key == w.callers[a.id].key by {
        EntryKeyed(w.cache, w.callers[a.id].key);
      }
    } else if a.LoadReturns? && Keepable(a.outcome, config) {
      LoadingIsNotCached(w, config, a.id);
      SettleCache(w, config, a.id, a.outcome, a.now);
      StoreEntries(w.cache, config, w.callers[a.id].key, a.outcome, a.now, key);
    } else {
      OtherCache(w, config, a);
    }
  }

  lemma EnterEntries(c: Cache, config: Config, key: string, flight: nat, now: int)
    requires Stored(c)
    ensures var after := EnterStep(c, config, key, flight, now).0.entries;
            after == if key in c.entries && now < c.entries[key].expiresAt then c.entries else c.entries - {key}
  {
    EntryKeyed(c, key);
    if !(key in c.entries && now < c.entries[key].expiresAt) {
      MissList(c, config, key, flight, now);
    }
  }

  lemma StoreEntries(c: Cache, config: Config, key: string, outcome: Outcome, now: int, k: string)
    requires Stored(c) && key !in c.entries && Keepable(outcome, config) && config.maxEntries > 0
    ensures var after := SettleStep(c, config, key, Some(outcome), now).entries;
            && key in after && after[key] == Entry(key, outcome, now + Lifetime(outcome))
            && (k != key && k in after ==> k in c.entries && after[k] == c.entries[k])
  {
    var n := InsertKeepsLongestPrefix(c, config, key, outcome, now);
  }

  /** A cached key was cached before, with the same entry, or has just been stored. */
  lemma CachedStep(config: Config, actions: seq<Action>, n: nat, key: string)
    requires config.maxEntries > 0 && 0 < n <= |actions| && key in RunTo(config, actions, n).cache.entries
    ensures var before, after, a := RunTo(config, actions, n - 1), RunTo(config, actions, n).cache.entries, actions[n - 1];
            if Stores(before, config, a, key) then after[key] == Entry(key, a.outcome, a.now + Lifetime(a.outcome))
            else key in before.cache.entries && after[key] == before.cache.entries[key]
  {
    var w, a := RunTo(config, actions, n - 1), actions[n - 1];
    RunToStep(config, actions, n - 1);
    InvAlways(config, actions[..n - 1]);
    if Enabled(w, a) {
      EntryStep(w, config, a, key);
    }
  }

  /** What is cached was stored and has not been taken out since. */
  lemma {:induction false} CachedWasStored(config: Config, actions: seq<Action>, n: nat, key: string)
    requires config.maxEntries > 0 && n <= |actions| && key in RunTo(config, actions, n).cache.entries
    ensures exists outcome, at ::
              && Resident(config, actions, n, key, outcome, at)
              && RunTo(config, actions, n).cache.entries[key] == Entry(key, outcome, at + Lifetime(outcome))
  {
    if n > 0 {
      var w, a := RunTo(config, actions, n - 1), actions[n - 1];
      CachedStep(config, actions, n, key);
      if Stores(w, config, a, key) {
        JustStored(config, actions, n, key);
      } else {
        CachedWasStored(config, actions, n - 1, key);
        var outcome, at :| Resident(config, actions, n - 1, key, outcome, at) && w.cache.entries[key] == Entry(key, outcome, at + Lifetime(outcome));
        StillResident(config, actions, n, key, outcome, at);
      }
    }
  }

  lemma JustStored(config: Config, actions: seq<Action>, n: nat, key: string)
    requires 0 < n <= |actions| && Stores(RunTo(config, actions, n - 1), config, actions[n - 1], key)
    ensures Resident(config, actions, n, key, actions[n - 1].outcome, actions[n - 1].now)
  {
    assert StoredAt(config, actions, n - 1, key, actions[n - 1].outcome, actions[n - 1].now);
    assert Undisturbed(config, actions, n, n, key);
  }

  lemma StillResident(config: Config, actions: seq<Action>, n: nat, key: string, outcome: Outcome, at: int)
    requires 0 < n <= |actions| && Resident(config, actions, n - 1, key, outcome, at) && !LeavesAt(config, actions, n - 1, key)
    ensures Resident(config, actions, n, key, outcome, at)
  {
    var i: nat :| i < n - 1 && StoredAt(config, actions, i, key, outcome, at) && Undisturbed(config, actions, i + 1, n - 1, key);
    assert Undisturbed(config, actions, i + 1, n, key);
  }

  /** What was stored and has not been taken out since is cached. */
  lemma {:induction false} StoredIsCached(config: Config, actions: seq<Action>, i: nat, n: nat, key: string, outcome: Outcome, at: int)
    requires config.maxEntries > 0 && i < n <= |actions|
    requires StoredAt(config, actions, i, key, outcome, at) && Undisturbed(config, actions, i + 1, n, key)
    ensures var entries := RunTo(config, actions, n).cache.entries;
            key in entries && entries[key] == Entry(key, outcome, at + Lifetime(outcome))
    decreases n
  {
    var w, a := RunTo(config, actions, n - 1), actions[n - 1];
    RunToStep(config, actions, n - 1);
    InvAlways(config, actions[..n - 1]);
    if i < n - 1 {
      StoredIsCached(config, actions, i, n - 1, key, outcome, at);
      assert !LeavesAt(config, actions, n - 1, key);
    }
    if Enabled(w, a) {
      EntryStep(w, config, a, key);
    }
  }

  /** In every reachable state the cache holds exactly what was stored and has not been taken out since. */
  lemma CachedExactly(config: Config, actions: seq<Action>, key: string, outcome: Outcome, at: int)
    requires config.maxEntries > 0
    ensures var entries := Run(config, actions).cache.entries;
            && (Resident(config, actions, |actions|, key, outcome, at) ==>
                  key in entries && entries[key] == Entry(key, outcome, at + Lifetime(outcome)))
            && (key in entries && entries[key] == Entry(key, outcome, at + Lifetime(outcome)) ==>
                  Resident(config, actions, |actions|, key, outcome, at))
  {
    var n := |actions|;
    assert actions[..n] == actions;
    if Resident(config, actions, n, key, outcome, at) {
      var i: nat :| i < n && StoredAt(config, actions, i, key, outcome, at) && Undisturbed(config, actions, i + 1, n, key);
      StoredIsCached(config, actions, i, n, key, outcome, at);
    }
    if key in Run(config, actions).cache.entries {
      CachedWasStored(config, actions, n, key);
    }
  }

  /**
   A key is taken out exactly by an entering caller that finds it expired, or by an insertion for
   which the entries used no less recently leave no room.
   */
  lemma LeavesExactly(config: Config, actions: seq<Action>, j: nat, p: nat)
    requires config.maxEntries > 0 && j < |actions| && p < |RunTo(config, actions, j).cache.lru|
    ensures var w, a := RunTo(config, actions, j), actions[j];
            var lru := w.cache.lru;
            LeavesAt(config, actions, j, lru[p].key) <==>
              && Enabled(w, a)
              && ((a.Enter? && w.callers[a.id].key == lru[p].key && lru[p].expiresAt <= a.now)
                  || (a.LoadReturns? && Keepable(a.outcome, config)
                      && !(p + 1 < config.maxEntries && Total(lru[..p + 1]) + |a.outcome.body| <= config.maxBytes)))
  {
    var w, a := RunTo(config, actions, j), actions[j];
    var e := w.cache.lru[p];
    RunToStep(config, actions, j);
    InvAlways(config, actions[..j]);
    AgreeMembers(w.cache.entries, w.cache.lru, e);
    if Enabled(w, a) {
      if a.Enter? {
        EnterCache(w, config, a.id, a.now);
        EnterEntries(w.cache, config, w.callers[a.id].key, w.started, a.now);
      } else if a.LoadReturns? && Keepable(a.outcome, config) {
        StaysExactly(w, config, a.id, a.outcome, a.now, p);
      } else {
        OtherCache(w, config, a);
      }
    }
  }

  // ---------------------------------------------------------------------------------------
  // What a caller is answered
  // ---------------------------------------------------------------------------------------

  /** Some load of the key is cached and within its lifetime. */
  ghost predicate Fresh(config: Config, actions: seq<Action>, key: string, now: int) {
    exists outcome, at :: Resident(config, actions, |actions|, key, outcome, at) && now < at + Lifetime(outcome)
  }

  lemma FreshIsServed(config: Config, actions: seq<Action>, id: nat, now: int)
    requires config.maxEntries > 0 && Enabled(Run(config, actions), Enter(id, now))
    ensures var w := Run(config, actions);
            var key := w.callers[id].key;
            && (Serves(w, config, Enter(id, now), key) <==> Fresh(config, actions, key, now))
            && forall outcome, at :: Resident(config, actions, |actions|, key, outcome, at) && now < at + Lifetime(outcome) ==>
                 Next(w, config, Enter(id, now)).callers[id] == Done(key, Cached(outcome))
  {
    var w, n := Run(config, actions), |actions|;
    var key := w.callers[id].key;
    assert actions[..n] == actions;
    ServesExactly(w, config, id, now, key);
    if key in w.cache.entries {
      CachedWasStored(config, actions, n, key);
    }
    forall outcome, at | Resident(config, actions, n, key, outcome, at) && now < at + Lifetime(outcome)
      ensures Serves(w, config, Enter(id, now), key) && Next(w, config, Enter(id, now)).callers[id] == Done(key, Cached(outcome))
    {
      CachedExactly(config, actions, key, outcome, at);
    }
  }

  /**
   The answer on entering, by the history and the other callers alone. A fresh load of the key is
   served. Otherwise, if another caller is loading the key, the caller waits for it unless the places
   for waiters are taken; if none is, it loads unless the places for loads are taken.
   */
  lemma AnswerExactly(config: Config, actions: seq<Action>, id: nat, now: int, leader: nat)
    requires config.maxEntries > 0 && Enabled(Run(config, actions), Enter(id, now))
    ensures var w := Run(config, actions);
            var key, answer := w.callers[id].key, Next(w, config, Enter(id, now)).callers[id];
            && (Fresh(config, actions, key, now) <==> answer.Done? && answer.result.Cached?)
            && (forall outcome, at :: Resident(config, actions, |actions|, key, outcome, at) && now < at + Lifetime(outcome) ==>
                  answer == Done(key, Cached(outcome)))
            && (!Fresh(config, actions, key, now) && Leads(w, leader, key) ==>
                  answer == if |Waiters(w.callers)| >= config.maxWaiters then Done(key, TooBusy) else Waiting(key, w.callers[leader].flight))
            && (!Fresh(config, actions, key, now) && (forall x :: !Leads(w, x, key)) ==>
                  answer == if |Loaders(w.callers)| >= config.maxConcurrent then Done(key, TooBusy) else Loading(key, w.started))
  {
    var w := Run(config, actions);
    InvAlways(config, actions);
    FreshIsServed(config, actions, id, now);
    if !Serves(w, config, Enter(id, now), w.callers[id].key) {
      MissAnswer(w, config, id, now, leader);
    }
  }

  /** A key is in flight exactly when some caller is loading it. */
  lemma FlightsAreLoads(w: World, config: Config, key: string, leader: nat)
    requires Inv(w, config)
    ensures key in w.cache.flights <==> exists x :: Leads(w, x, key)
    ensures Leads(w, leader, key) ==> key in w.cache.flights && w.cache.flights[key] == w.callers[leader].flight
  {
    if key in w.cache.flights {
      assert FlightOk(w, key);
    }
    if x :| Leads(w, x, key) {
      assert CallerOk(w, x);
    }
    if Leads(w, leader, key) {
      assert CallerOk(w, leader);
    }
  }

  lemma MissAnswer(w: World, config: Config, id: nat, now: int, leader: nat)
    requires Inv(w, config) && Enabled(w, Enter(id, now)) && !Serves(w, config, Enter(id, now), w.callers[id].key)
    ensures var key, answer := w.callers[id].key, Next(w, config, Enter(id, now)).callers[id];
            && !(answer.Done? && answer.result.Cached?)
            && (Leads(w, leader, key) ==>
                  answer == if |Waiters(w.callers)| >= config.maxWaiters then Done(key, TooBusy) else Waiting(key, w.callers[leader].flight))
            && ((forall x :: !Leads(w, x, key)) ==>
                  answer == if |Loaders(w.callers)| >= config.maxConcurrent then Done(key, TooBusy) else Loading(key, w.started))
  {
    FlightsAreLoads(w, config, w.callers[id].key, leader);
  }

  /** How a waiter leaves: with what its flight gave, refused when it has waited too long, or with its context's error. */
  lemma WaiterLeaves(w: World, config: Config, id: nat, timedOut: bool)
    requires id in w.callers && w.callers[id].Waiting?
    ensures var Waiting(key, flight) := w.callers[id];
            var left := Next(w, config, StopWaiting(id, timedOut)).callers[id];
            && left == Leaving(key, flight, left.result) && (timedOut <==> left.result == TooBusy) && (!timedOut <==> left.result == ContextDone)
            && (flight in w.ended ==> Next(w, config, Wake(id)).callers[id] == Leaving(key, flight, Shared(flight, w.ended[flight].loaded)))
  {}
}
