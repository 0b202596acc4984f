/** The LRU store alone: the map and the list always agree, and inserting keeps a longest prefix. */
module QueryCacheStore {
  import opened QueryCacheModel

  function Total(list: seq<Entry>): nat {
    if list == [] then 0 else |list[0].outcome.body| + Total(list[1..])
  }

  /** Map and list hold the same entries, once each: taking both apart entry by entry empties both. */
  ghost predicate Agree(entries: map<string, Entry>, list: seq<Entry>) {
    if list == [] then entries == map[]
    else
      var e := list[0];
      e.key in entries && entries[e.key] == e && Agree(entries - {e.key}, list[1..])
  }

  lemma {:induction false} AgreeMembers(entries: map<string, Entry>, list: seq<Entry>, e: Entry)
    requires Agree(entries, list)
    ensures e in list <==> e.key in entries && entries[e.key] == e
  {
    if list != [] {
      AgreeMembers(entries - {list[0].key}, list[1..], e);
      assert list == [list[0]] + list[1..];
    }
  }

  lemma {:induction false} AgreeKeys(entries: map<string, Entry>, list: seq<Entry>, k: string)
    requires Agree(entries, list)
    ensures k in entries ==> entries[k].key == k
    ensures |entries| == |list|
  {
    if list != [] {
      var head, rest := list[0], entries - {list[0].key};
      AgreeKeys(rest, list[1..], k);
      assert entries == rest[head.key := head];
    }
  }

  lemma {:induction false} AgreeDistinct(entries: map<string, Entry>, list: seq<Entry>, i: nat, j: nat)
    requires Agree(entries, list) && i < j < |list|
    ensures list[i].key != list[j].key
  {
    if i > 0 {
      AgreeDistinct(entries - {list[0].key}, list[1..], i - 1, j - 1);
    } else {
      AgreeMembers(entries - {list[0].key}, list[1..], list[j]);
      assert list[j] == list[1..][j - 1];
    }
  }

  /** What agreement means: the list is the map's entries without repeats, none out of the map's reach. */
  lemma AgreeMeans(entries: map<string, Entry>, list: seq<Entry>)
    requires Agree(entries, list)
    ensures forall i, j :: 0 <= i < j < |list| ==> list[i].key != list[j].key
    ensures forall e :: e in list <==> e.key in entries && entries[e.key] == e
    ensures forall k :: k in entries ==> entries[k].key == k
    ensures |entries| == |list|
  {
    forall i, j | 0 <= i < j < |list| ensures list[i].key != list[j].key {
      AgreeDistinct(entries, list, i, j);
    }
    forall e ensures e in list <==> e.key in entries && entries[e.key] == e {
      AgreeMembers(entries, list, e);
    }
    forall k ensures k in entries ==> entries[k].key == k {
      AgreeKeys(entries, list, k);
    }
    AgreeKeys(entries, list, "");
  }

  /** One round of making room. */
  lemma MakeRoomEvicts(c: Cache, config: Config, size: nat)
    requires c.lru != [] && Overfull(c, config, size)
    ensures MakeRoom(c, config, size) == MakeRoom(Evict(c, c.lru[|c.lru| - 1]), config, size)
  {}

  ghost predicate Stored(c: Cache) {
    Agree(c.entries, c.lru) && c.bytes == Total(c.lru)
  }

  ghost predicate Bounded(c: Cache, config: Config) {
    |c.lru| <= config.maxEntries && c.bytes <= config.maxBytes
  }

  lemma {:induction false} WithoutAbsent(entries: map<string, Entry>, list: seq<Entry>, e: Entry)
    requires Agree(entries, list) && e.key !in entries
    ensures Without(list, e) == list
  {
    if list != [] {
      WithoutAbsent(entries - {list[0].key}, list[1..], e);
    }
  }

  lemma {:induction false} WithoutAgrees(entries: map<string, Entry>, list: seq<Entry>, e: Entry)
    requires Agree(entries, list) && e.key in entries && entries[e.key] == e
    ensures Agree(entries - {e.key}, Without(list, e))
    ensures Total(Without(list, e)) == Total(list) - |e.outcome.body|
    ensures |Without(list, e)| == |list| - 1
  {
    var head, tail := list[0], list[1..];
    if head == e {
      WithoutAbsent(entries - {e.key}, tail, e);
    } else {
      WithoutAgrees(entries - {head.key}, tail, e);
      assert entries - {head.key} - {e.key} == entries - {e.key} - {head.key};
      var rest := Without(tail, e);
      assert ([head] + rest)[1..] == rest;
    }
  }

  lemma EvictStored(c: Cache, e: Entry)
    requires Stored(c) && e.key in c.entries && c.entries[e.key] == e
    ensures Stored(Evict(c, e)) && |Evict(c, e).lru| == |c.lru| - 1
    ensures Evict(c, e).bytes <= c.bytes
  {
    WithoutAgrees(c.entries, c.lru, e);
  }

  lemma PushStored(entries: map<string, Entry>, list: seq<Entry>, e: Entry)
    requires Agree(entries, list) && e.key !in entries
    ensures Agree(entries[e.key := e], [e] + list)
    ensures Total([e] + list) == |e.outcome.body| + Total(list)
  {
    assert ([e] + list)[1..] == list;
    assert entries[e.key := e] - {e.key} == entries;
  }

  /** Serving an entry reorders the list and loses nothing. */
  lemma MoveToFrontStored(c: Cache, e: Entry)
    requires Stored(c) && e.key in c.entries && c.entries[e.key] == e
    ensures Stored(c.(lru := [e] + Without(c.lru, e))) && |[e] + Without(c.lru, e)| == |c.lru|
  {
    WithoutAgrees(c.entries, c.lru, e);
    PushStored(c.entries - {e.key}, Without(c.lru, e), e);
    assert (c.entries - {e.key})[e.key := e] == c.entries;
  }

  // ---------------------------------------------------------------------------------------
  // Eviction
  // ---------------------------------------------------------------------------------------

  /** The first `n` entries, with `size` more bytes and one more entry, stay within bounds. */
  ghost predicate Fits(list: seq<Entry>, n: nat, config: Config, size: nat)
    requires n <= |list|
  {
    n < config.maxEntries && Total(list[..n]) + size <= config.maxBytes
  }

  lemma {:induction false} WithoutLast(entries: map<string, Entry>, list: seq<Entry>)
    requires Agree(entries, list) && list != []
    ensures list[|list| - 1].key in entries && entries[list[|list| - 1].key] == list[|list| - 1]
    ensures Without(list, list[|list| - 1]) == list[..|list| - 1]
  {
    var e, head, tail := list[|list| - 1], list[0], list[1..];
    if tail == [] {
      assert Without(tail, e) == [];
    } else {
      WithoutLast(entries - {head.key}, tail);
      assert tail[|tail| - 1] == e;
      assert [head] + tail[..|tail| - 1] == list[..|list| - 1];
    }
  }

  lemma EvictLast(c: Cache)
    requires Stored(c) && c.lru != []
    ensures
      var c' := Evict(c, c.lru[|c.lru| - 1]);
      && Stored(c') && c'.lru == c.lru[..|c.lru| - 1]
      && c'.flights == c.flights && c'.waiters == c.waiters
      && (forall k :: k in c'.entries ==> k in c.entries && c'.entries[k] == c.entries[k])
  {
    WithoutLast(c.entries, c.lru);
    EvictStored(c, c.lru[|c.lru| - 1]);
  }

  lemma FitsPrefix(list: seq<Entry>, n: nat, m: nat, config: Config, size: nat)
    requires n <= m <= |list|
    ensures Fits(list[..m], n, config, size) == Fits(list, n, config, size)
  {
    assert list[..m][..n] == list[..n];
  }

  /**
   Making room keeps a prefix of the most recently used entries: the longest one that leaves
   room for the new body, or nothing when none does.
   */
  lemma {:induction false} MakeRoomKeepsLongestPrefix(c: Cache, config: Config, size: nat) returns (n: nat)
    requires Stored(c)
    ensures Stored(MakeRoom(c, config, size))
    ensures n <= |c.lru| && MakeRoom(c, config, size).lru == c.lru[..n]
    ensures n == 0 || Fits(c.lru, n, config, size)
    ensures forall m :: n < m <= |c.lru| ==> !Fits(c.lru, m, config, size)
    ensures MakeRoom(c, config, size).flights == c.flights && MakeRoom(c, config, size).waiters == c.waiters
    ensures forall k :: k in MakeRoom(c, config, size).entries ==> k in c.entries && MakeRoom(c, config, size).entries[k] == c.entries[k]
    decreases |c.lru|
  {
    var full := |c.lru|;
    assert c.lru[..full] == c.lru;
    if c.lru == [] || !Overfull(c, config, size) {
      n := full;
    } else {
      EvictLast(c);
      n := MakeRoomKeepsLongestPrefix(Evict(c, c.lru[full - 1]), config, size);
      assert c.lru[..full - 1][..n] == c.lru[..n];
      FitsPrefix(c.lru, n, full - 1, config, size);
      forall m | n < m <= full ensures !Fits(c.lru, m, config, size) {
        if m < full {
          FitsPrefix(c.lru, m, full - 1, config, size);
        }
      }
    }
  }

  /** An insertion puts the new entry in front of that prefix and stays within both bounds. */
  lemma InsertKeepsLongestPrefix(c: Cache, config: Config, key: string, outcome: Outcome, now: int) returns (n: nat)
    requires Stored(c) && key !in c.entries && |outcome.body| <= config.maxBytes && config.maxEntries > 0
    ensures
      var c' := Insert(c, config, key, outcome, now);
      && Stored(c') && Bounded(c', config) && n <= |c.lru|
      && c'.lru == [Entry(key, outcome, now + Ttl(outcome))] + c.lru[..n]
      && (n == 0 || Fits(c.lru, n, config, |outcome.body|))
      && (forall m :: n < m <= |c.lru| ==> !Fits(c.lru, m, config, |outcome.body|))
      && c'.flights == c.flights && c'.waiters == c.waiters
      && (forall k :: k in c'.entries && k != key ==> k in c.entries && c'.entries[k] == c.entries[k])
  {
    n := MakeRoomKeepsLongestPrefix(c, config, |outcome.body|);
    var room := MakeRoom(c, config, |outcome.body|);
    PushStored(room.entries, room.lru, Entry(key, outcome, now + Ttl(outcome)));
  }
}
