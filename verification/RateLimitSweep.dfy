/**
 The idle sweep walks the LRU list from its oldest end and stops at the first key that is not
 idle. `SweptFrom` is what it has done by the time it has passed position `n`.
 */
module RateLimitSweep {
  import opened RateLimitModel

  /** The store once the keys of `passed` have been swept. */
  ghost function SweptStore(l: Limiter, passed: seq<string>, now: int): map<string, Entry> {
    map k | k in l.store && (k in passed ==> !Evicted(l, k, now)) ::
      if k in passed then l.store[k].(requests := Swept(l, k, now)) else l.store[k]
  }

  ghost function SweptFrom(l: Limiter, n: nat, now: int): Limiter
    requires n <= |l.lru|
  {
    var store := SweptStore(l, l.lru[n..], now);
    l.(store := store, lru := l.lru[..n] + Keep(l.lru[n..], store))
  }

  /** The walk's next state: trim the queue of the key before `n`, drop the key if that empties it. */
  ghost function SweptOne(p: Limiter, n: nat, now: int): Limiter
    requires 0 < n <= |p.lru| && p.lru[n - 1] in p.store
  {
    var key := p.lru[n - 1];
    var queue := RemoveExpired(p.store[key].requests, Unix(now), p.store[key].duration);
    if queue == [] then p.(store := p.store - {key}, lru := p.lru[..n - 1] + p.lru[n..])
    else p.(store := p.store[key := p.store[key].(requests := queue)])
  }

  lemma SweepStarts(l: Limiter, now: int)
    ensures SweptFrom(l, |l.lru|, now) == l
  {
    var n := |l.lru|;
    assert l.lru[n..] == [] && l.lru[..n] == l.lru;
    assert SweptStore(l, [], now) == l.store;
    assert l.lru + [] == l.lru;
  }

  lemma {:induction false} KeepSame(list: seq<string>, s: map<string, Entry>, t: map<string, Entry>)
    requires forall k :: k in list ==> (k in s <==> k in t)
    ensures Keep(list, s) == Keep(list, t)
  {
    if list != [] {
      KeepSame(list[1..], s, t);
    }
  }

  lemma {:induction false} KeepAll(list: seq<string>, s: map<string, Entry>)
    requires forall k :: k in list ==> k in s
    ensures Keep(list, s) == list
  {
    if list != [] {
      KeepAll(list[1..], s);
    }
  }

  lemma {:induction false} KeepConcat(a: seq<string>, b: seq<string>, s: map<string, Entry>)
    ensures Keep(a + b, s) == Keep(a, s) + Keep(b, s)
  {
    if a == [] {
      assert a + b == b;
    } else {
      assert (a + b)[1..] == a[1..] + b;
      KeepConcat(a[1..], b, s);
    }
  }

  /** The key the walk looks at next is still as it was. */
  lemma NotYetPassed(l: Limiter, n: nat, now: int)
    requires WellFormed(l) && 0 < n <= |l.lru|
    ensures l.lru[n - 1] in l.store && l.lru[n - 1] !in l.lru[n..]
    ensures
      var p := SweptFrom(l, n, now);
      && n <= |p.lru| && p.lru[n - 1] == l.lru[n - 1]
      && l.lru[n - 1] in p.store && p.store[l.lru[n - 1]] == l.store[l.lru[n - 1]] && p.expiration == l.expiration
  {
    var key := l.lru[n - 1];
    assert key in l.lru;
    assert key !in l.lru[n..];
  }

  lemma SweptStoreNext(l: Limiter, key: string, tail: seq<string>, now: int)
    requires key in l.store && key !in tail && Idle(l, key, now)
    ensures
      var s := SweptStore(l, tail, now);
      SweptStore(l, [key] + tail, now)
      == if Swept(l, key, now) == [] then s - {key} else s[key := l.store[key].(requests := Swept(l, key, now))]
  {
    var s, s' := SweptStore(l, tail, now), SweptStore(l, [key] + tail, now);
    var want := if Swept(l, key, now) == [] then s - {key} else s[key := l.store[key].(requests := Swept(l, key, now))];
    forall k ensures k in [key] + tail <==> k == key || k in tail {}
    forall k ensures k in s' <==> k in want {}
    forall k | k in s' ensures s'[k] == want[k] {}
  }

  lemma SweptListNext(l: Limiter, n: nat, s: map<string, Entry>, s': map<string, Entry>)
    requires 0 < n <= |l.lru|
    requires forall k :: k in l.lru[n..] ==> (k in s <==> k in s')
    ensures
      var list := l.lru[..n] + Keep(l.lru[n..], s);
      l.lru[..n - 1] + Keep(l.lru[n - 1..], s')
      == if l.lru[n - 1] in s' then list else list[..n - 1] + list[n..]
  {
    var key, tail := l.lru[n - 1], l.lru[n..];
    assert l.lru[n - 1..][1..] == tail;
    KeepSame(tail, s, s');
    assert l.lru[..n] == l.lru[..n - 1] + [key];
    var list := l.lru[..n] + Keep(tail, s);
    assert list[..n - 1] == l.lru[..n - 1] && list[n..] == Keep(tail, s);
  }

  /** One round of the loop moves the sweep from position `n` to `n - 1`. */
  lemma SweepAdvances(l: Limiter, n: nat, now: int)
    requires 0 < n <= |l.lru| && l.lru[n - 1] in l.store && l.lru[n - 1] !in l.lru[n..]
    requires Idle(l, l.lru[n - 1], now)
    ensures SweptOne(SweptFrom(l, n, now), n, now) == SweptFrom(l, n - 1, now)
  {
    var key, tail := l.lru[n - 1], l.lru[n..];
    assert l.lru[n - 1..] == [key] + tail;
    SweptStoreNext(l, key, tail, now);
    SweptListNext(l, n, SweptStore(l, tail, now), SweptStore(l, [key] + tail, now));
  }

  /** No key before one that is not idle is idle either. */
  lemma NoneIdleBefore(l: Limiter, n: nat, now: int)
    requires WellFormed(l) && n <= |l.lru|
    requires n > 0 ==> !Idle(l, l.lru[n - 1], now)
    ensures forall k :: k in l.lru[..n] ==> k in l.store && !Idle(l, k, now)
    ensures forall k :: k in l.store && k !in l.lru[n..] ==> k in l.lru[..n]
  {
    forall k | k in l.lru[..n] ensures k in l.store && !Idle(l, k, now) {
      var i :| 0 <= i < n && l.lru[i] == k;
      assert i < n - 1 ==> l.store[l.lru[n - 1]].lastActive <= l.store[l.lru[i]].lastActive;
    }
    assert l.lru == l.lru[..n] + l.lru[n..];
  }

  lemma SweepCompletes(l: Limiter, head: seq<string>, tail: seq<string>, now: int)
    requires l.expiration > 0 && l.lru == head + tail
    requires forall k :: k in head ==> k in l.store && !Idle(l, k, now)
    requires forall k :: k in l.store && k !in tail ==> k in head
    ensures var store := SweptStore(l, tail, now);
            l.(store := store, lru := head + Keep(tail, store)) == SweepStep(l, now)
  {
    var s, want := SweptStore(l, tail, now), SweepStep(l, now).store;
    forall k ensures k in s <==> k in want {}
    forall k | k in s ensures s[k] == want[k] {}
    assert s == want;
    KeepConcat(head, tail, want);
    KeepAll(head, want);
  }

  /** Stopping at the first key that is not idle, or at the front, completes the sweep. */
  lemma SweepStops(l: Limiter, n: nat, now: int)
    requires WellFormed(l) && n <= |l.lru| && l.expiration > 0
    requires n > 0 ==> !Idle(l, l.lru[n - 1], now)
    ensures SweptFrom(l, n, now) == SweepStep(l, now)
  {
    NoneIdleBefore(l, n, now);
    assert l.lru == l.lru[..n] + l.lru[n..];
    SweepCompletes(l, l.lru[..n], l.lru[n..], now);
  }

  // ---------------------------------------------------------------------------------------
  // The walk as a sequence of states
  // ---------------------------------------------------------------------------------------

  /**
   What holds when the walk has come down to position `i`: the key before it is stored; if that is idle, sweeping it
   leads to the next state; and where the walk stops, `swept` has been reached.
   */
  ghost predicate OnTheWay(steps: seq<Limiter>, i: nat, now: int, swept: Limiter)
    requires i < |steps|
  {
    && (i > 0 ==> i <= |steps[i].lru| && steps[i].lru[i - 1] in steps[i].store)
    && (i > 0 && Idle(steps[i], steps[i].lru[i - 1], now) ==> SweptOne(steps[i], i, now) == steps[i - 1])
    && (i == 0 || !Idle(steps[i], steps[i].lru[i - 1], now) ==> steps[i] == swept)
  }

  ghost function Steps(l: Limiter, now: int): seq<Limiter> {
    seq(|l.lru| + 1, i requires 0 <= i <= |l.lru| => SweptFrom(l, i, now))
  }

  /** What holds at a position, told of the states before and after it. */
  lemma WayOn(steps: seq<Limiter>, l: Limiter, i: nat, now: int, swept: Limiter)
    requires 0 < i < |steps| && i <= |l.lru| && l.lru[i - 1] in l.store
    requires
      var p := steps[i];
      && i <= |p.lru| && p.lru[i - 1] == l.lru[i - 1]
      && l.lru[i - 1] in p.store && p.store[l.lru[i - 1]] == l.store[l.lru[i - 1]] && p.expiration == l.expiration
    requires if Idle(l, l.lru[i - 1], now) then SweptOne(steps[i], i, now) == steps[i - 1] else steps[i] == swept
    ensures OnTheWay(steps, i, now, swept)
  {}

  lemma StepOnTheWay(l: Limiter, i: nat, now: int)
    requires WellFormed(l) && l.expiration > 0 && i <= |l.lru|
    ensures OnTheWay(Steps(l, now), i, now, SweepStep(l, now))
  {
    var steps := Steps(l, now);
    if i == 0 {
      SweepStops(l, 0, now);
    } else {
      NotYetPassed(l, i, now);
      if Idle(l, l.lru[i - 1], now) {
        SweepAdvances(l, i, now);
      } else {
        SweepStops(l, i, now);
      }
      WayOn(steps, l, i, now, SweepStep(l, now));
    }
  }

  /** The walk begins at the limiter as it is, and leads to the sweep. */
  lemma WalkLeadsToSweep(l: Limiter, now: int)
    requires WellFormed(l) && l.expiration > 0
    ensures Steps(l, now)[|l.lru|] == l
    ensures forall i: nat :: i < |Steps(l, now)| ==> OnTheWay(Steps(l, now), i, now, SweepStep(l, now))
  {
    SweepStarts(l, now);
    forall i: nat | i < |Steps(l, now)| ensures OnTheWay(Steps(l, now), i, now, SweepStep(l, now)) {
      StepOnTheWay(l, i, now);
    }
  }
}
