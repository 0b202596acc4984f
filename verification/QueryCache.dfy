/**
 The cache object: a map to list elements, the LRU list of those elements, the table of
 flights, and two counters, changed in place by the critical sections of `get`.
 */
module QueryCache {
  import opened Options
  import opened QueryCacheModel
  import opened QueryCacheStore
  import opened MapFacts

  class Element {
    const entry: Entry

    constructor (entry: Entry)
      ensures this.entry == entry
    {
      this.entry := entry;
    }
  }

  /** One load in flight. Closing `done` publishes what the load gave to the waiters. */
  class Flight {
    const number: nat
    var done: bool
    var loaded: Option<Outcome>

    constructor (number: nat)
      ensures this.number == number && !done
    {
      this.number := number;
      done, loaded := false, None;
    }
  }

  function EntriesOf(list: seq<Element>): seq<Entry> {
    if list == [] then [] else [list[0].entry] + EntriesOf(list[1..])
  }

  function WithoutElement(list: seq<Element>, x: Element): seq<Element> {
    if list == [] then []
    else if list[0] == x then WithoutElement(list[1..], x)
    else [list[0]] + WithoutElement(list[1..], x)
  }

  lemma {:induction false} EntriesOfLength(list: seq<Element>)
    ensures |EntriesOf(list)| == |list|
    ensures list != [] ==> EntriesOf(list)[|list| - 1] == list[|list| - 1].entry
  {
    if list != [] {
      EntriesOfLength(list[1..]);
      assert list[1..] != [] ==> list[1..][|list| - 2] == list[|list| - 1];
    }
  }

  /** Removing a node by identity is removing its entry by value, as no two nodes hold equal entries. */
  lemma {:induction false} EntriesOfWithout(list: seq<Element>, x: Element)
    requires forall i :: 0 <= i < |list| && list[i].entry == x.entry ==> list[i] == x
    ensures EntriesOf(WithoutElement(list, x)) == Without(EntriesOf(list), x.entry)
    ensures forall i :: 0 <= i < |WithoutElement(list, x)| ==> WithoutElement(list, x)[i] in list && WithoutElement(list, x)[i] != x
  {
    if list != [] {
      EntriesOfWithout(list[1..], x);
      assert EntriesOf(list)[1..] == EntriesOf(list[1..]);
      var rest := WithoutElement(list[1..], x);
      assert ([list[0]] + rest)[1..] == rest;
    }
  }

  class PerformanceQueryCache {
    const config: Config
    var entries: map<string, Element>
    var lru: seq<Element>
    var flights: map<string, Flight>
    var bytes: int
    var waiters: int

    /** Every node of the list is the one the map holds under its key. */
    ghost predicate Linked()
      reads this
    {
      && (forall i :: 0 <= i < |lru| ==> lru[i].entry.key in entries && entries[lru[i].entry.key] == lru[i])
      && (forall k :: k in entries ==> entries[k].entry.key == k)
    }

    ghost function View(): Cache
      reads this
    {
      Cache(map k | k in entries :: entries[k].entry, EntriesOf(lru), map k | k in flights :: flights[k].number, bytes, waiters)
    }

    ghost predicate Valid()
      reads this
    {
      Linked() && Stored(View())
    }

    constructor (config: Config)
      ensures Valid() && this.config == config && View() == EMPTY
    {
      this.config := config;
      entries, lru, flights, bytes, waiters := map[], [], map[], 0, 0;
    }

    method EvictElement(element: Element)
      requires Valid() && element.entry.key in entries && entries[element.entry.key] == element
      modifies this`entries, this`lru, this`bytes
      ensures Valid() && View() == Evict(old(View()), element.entry)
    {
      EntriesOfWithout(lru, element);
      EvictStored(View(), element.entry);
      entries := entries - {element.entry.key};
      bytes := bytes - |element.entry.outcome.body|;
      lru := WithoutElement(lru, element);
      MapRemoved(old(View()).entries, View().entries, element.entry.key);
    }

    method MoveToFront(element: Element)
      requires Valid() && element.entry.key in entries && entries[element.entry.key] == element
      modifies this`lru
      ensures Valid() && View() == old(View()).(lru := [element.entry] + Without(old(View()).lru, element.entry))
    {
      EntriesOfWithout(lru, element);
      MoveToFrontStored(View(), element.entry);
      lru := [element] + WithoutElement(lru, element);
      assert View().lru == [element.entry] + Without(old(View()).lru, element.entry);
    }

    /** The first critical section of `get`. A flight is returned to the leader and to those who join it. */
    method Enter(key: string, number: nat, now: int) returns (entered: Entered, flight: Flight?)
      requires Valid()
      modifies this
      ensures Valid() && (View(), entered) == EnterStep(old(View()), config, key, number, now)
      ensures entered.Lead? || entered.Join? ==> key in flights && flight == flights[key]
      ensures entered.Lead? ==> fresh(flight) && !flight.done
    {
      flight := null;
      if key in entries {
        var element := entries[key];
        if now < element.entry.expiresAt {
          MoveToFront(element);
          return Hit(element.entry.outcome), null;
        }
        EvictElement(element);
      }
      if key in flights {
        flight := flights[key];
        if waiters >= config.maxWaiters {
          return Busy, null;
        }
        waiters := waiters + 1;
        return Join(flight.number), flight;
      }
      assert View().flights.Keys == flights.Keys;
      if |flights| >= config.maxConcurrent {
        return Busy, null;
      }
      flight := new Flight(number);
      label registered:
      flights := flights[key := flight];
      MapUpdated(old@registered(View().flights), View().flights, key, number);
      return Lead, flight;
    }

    /** Evicts the least recently used entry. */
    method EvictOldest()
      requires Valid() && lru != []
      modifies this`entries, this`lru, this`bytes
      ensures Valid() && |lru| == |old(lru)| - 1
      ensures old(View()).lru != [] && View() == Evict(old(View()), old(View()).lru[|old(View()).lru| - 1])
    {
      EntriesOfLength(lru);
      var oldest := lru[|lru| - 1];
      WithoutLast(View().entries, View().lru);
      EvictStored(View(), oldest.entry);
      EvictElement(oldest);
      EntriesOfLength(lru);
    }

    /** Evicts least recently used entries until `size` more bytes fit. */
    method MakeRoomFor(size: nat)
      requires Valid()
      modifies this`entries, this`lru, this`bytes
      ensures Valid() && View() == MakeRoom(old(View()), config, size)
    {
      EntriesOfLength(lru);
      while |lru| > 0 && (|lru| >= config.maxEntries || bytes + size > config.maxBytes)
        invariant Valid() && |View().lru| == |lru|
        invariant MakeRoom(View(), config, size) == MakeRoom(old(View()), config, size)
        decreases |lru|
      {
        MakeRoomEvicts(View(), config, size);
        EvictOldest();
        EntriesOfLength(lru);
      }
      assert !Overfull(View(), config, size) || View().lru == [];
    }

    /** The leader's deferred section; `loaded` is None when the loader panicked. */
    method Settle(key: string, flight: Flight, loaded: Option<Outcome>, now: int)
      requires Valid() && key in flights && flights[key] == flight && !flight.done && key !in entries
      modifies this, flight
      ensures Valid() && View() == SettleStep(old(View()), config, key, loaded, now)
      ensures flight.done && flight.loaded == loaded && key !in flights
    {
      flight.loaded := loaded;
      if loaded.Some? && Cacheable(loaded.value, config) {
        Store(key, loaded.value, now);
      }
      label stored:
      flights := flights - {key};
      flight.done := true;
      MapRemoved(old@stored(View().flights), View().flights, key);
    }

    method Store(key: string, outcome: Outcome, now: int)
      requires Valid() && key !in entries
      modifies this`entries, this`lru, this`bytes
      ensures Valid() && View() == Insert(old(View()), config, key, outcome, now)
    {
      ghost var kept := MakeRoomKeepsLongestPrefix(View(), config, |outcome.body|);
      assert key !in MakeRoom(View(), config, |outcome.body|).entries;
      MakeRoomFor(|outcome.body|);
      assert key in View().entries <==> key in entries;
      PushFront(Entry(key, outcome, now + Ttl(outcome)));
    }

    method PushFront(entry: Entry)
      requires Valid() && entry.key !in entries
      modifies this`entries, this`lru, this`bytes
      ensures Valid()
      ensures View() == old(View()).(entries := old(View()).entries[entry.key := entry],
                                     lru := [entry] + old(View()).lru, bytes := old(bytes) + |entry.outcome.body|)
    {
      PushStored(View().entries, View().lru, entry);
      var element := new Element(entry);
      entries := entries[entry.key := element];
      lru := [element] + lru;
      bytes := bytes + |entry.outcome.body|;
      MapUpdated(old(View()).entries, View().entries, entry.key, entry);
    }

    /** A waiter, served or not, gives its place back. */
    method LeaveWaiters()
      requires Valid()
      modifies this`waiters
      ensures Valid() && View() == old(View()).(waiters := old(waiters) - 1)
    {
      waiters := waiters - 1;
    }
  }
}
