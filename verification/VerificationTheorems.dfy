/** A verification succeeds exactly when the latest registration allows it, whatever else was done and purged meanwhile. */
module VerificationTheorems {
  import opened Decimals
  import opened VerificationModel

  // ---------------------------------------------------------------------------------------
  // Identities
  // ---------------------------------------------------------------------------------------

  lemma DecimalHasNoColon(n: nat)
    ensures ':' !in Decimal(n)
  {
    DecimalReads(n);
  }

  /** What stands before the first separator, and after it, is determined. */
  lemma {:induction false} FirstColon(a: string, x: string, b: string, y: string)
    requires ':' !in a && ':' !in b && a + ":" + x == b + ":" + y
    ensures a == b && x == y
  {
    var s, t := a + ":" + x, b + ":" + y;
    assert s[|a|] == ':' && t[|b|] == ':';
    assert a == s[..|a|] && b == t[..|b|];
    assert x == s[|a| + 1..] && y == t[|b| + 1..];
  }

  /** Purpose and key can be read off the identity. */
  lemma IdentityIsInjective(key: string, purpose: string, key': string, purpose': string)
    ensures Identity(key, purpose) == Identity(key', purpose') <==> key == key' && purpose == purpose'
  {
    if Identity(key, purpose) == Identity(key', purpose') {
      DecimalHasNoColon(|purpose|);
      DecimalHasNoColon(|purpose'|);
      assert Identity(key, purpose) == Decimal(|purpose|) + ":" + (purpose + key);
      assert Identity(key', purpose') == Decimal(|purpose'|) + ":" + (purpose' + key');
      FirstColon(Decimal(|purpose|), purpose + key, Decimal(|purpose'|), purpose' + key');
      DecimalReads(|purpose|);
      DecimalReads(|purpose'|);
      assert purpose == (purpose + key)[..|purpose|] && purpose' == (purpose' + key')[..|purpose'|];
      assert key == (purpose + key)[|purpose|..] && key' == (purpose' + key')[|purpose'|..];
    }
  }

  // ---------------------------------------------------------------------------------------
  // The latest registration decides
  // ---------------------------------------------------------------------------------------

  ghost predicate Injective(hash: Hash) {
    forall x, y :: hash(x) == hash(y) ==> x == y
  }

  ghost predicate ClockOrdered(events: seq<Event>) {
    forall i, j :: 0 <= i < j < |events| ==> events[i].now <= events[j].now
  }

  predicate SameId(e: Event, key: string, purpose: string) {
    e.key == key && e.purpose == purpose
  }

  /** A registration that was taken. */
  predicate Taken(e: Event, minutes: int) {
    e.Register? && e.code != "" && minutes > 0
  }

  function ValueOf(e: Event): Value {
    Value(e.code, e.now)
  }

  /** A registration lets a verification pass: same code, within its minutes. */
  predicate Grants(registration: Event, verification: Event, minutes: int) {
    registration.code == verification.code && verification.now - registration.now < minutes * 60 * 1_000_000_000
  }

  /**
   The last registration of an identity that no later one replaced and no verification used up, by the events
   alone: which verifications pass is decided here without any store.
   */
  ghost function Latest(events: seq<Event>, n: nat, key: string, purpose: string, minutes: int): (r: int)
    requires n <= |events|
    ensures -1 <= r < n
    ensures r >= 0 ==> SameId(events[r], key, purpose) && Taken(events[r], minutes)
  {
    if n == 0 then -1
    else
      var r, e := Latest(events, n - 1, key, purpose, minutes), events[n - 1];
      if !SameId(e, key, purpose) then r
      else if Taken(e, minutes) then n - 1
      else if e.Verify? && r >= 0 && Grants(events[r], e, minutes) then -1
      else r
  }

  /** The i-th event is a verification that its identity's latest registration lets pass. */
  ghost predicate Passes(events: seq<Event>, i: nat, minutes: int)
    requires i < |events|
  {
    var r := Latest(events, i, events[i].key, events[i].purpose, minutes);
    events[i].Verify? && r >= 0 && Grants(events[r], events[i], minutes)
  }

  /** The registration at `r` still stands after the first `n` events. */
  ghost predicate Stands(events: seq<Event>, r: int, n: nat, key: string, purpose: string, minutes: int)
    requires n <= |events|
  {
    && 0 <= r < n && SameId(events[r], key, purpose) && Taken(events[r], minutes)
    && forall j :: r < j < n && SameId(events[j], key, purpose) ==> !Taken(events[j], minutes) && !Passes(events, j, minutes)
  }

  lemma {:induction false} LatestStands(events: seq<Event>, n: nat, key: string, purpose: string, minutes: int, r: int)
    requires n <= |events|
    ensures Stands(events, r, n, key, purpose, minutes) <==> r >= 0 && Latest(events, n, key, purpose, minutes) == r
  {
    if n > 0 {
      LatestStands(events, n - 1, key, purpose, minutes, r);
    }
  }

  lemma PlaceIsIdentity(e: Event, key: string, purpose: string, hash: Hash)
    requires Injective(hash)
    ensures Place(e, hash) == hash(Identity(key, purpose)) <==> SameId(e, key, purpose)
  {
    IdentityIsInjective(e.key, e.purpose, key, purpose);
  }

  /** A code lives for its minutes, to the nanosecond. */
  lemma ExpiredExactly(v: Value, now: int, minutes: int)
    requires minutes > 0
    ensures Expired(v, now, minutes) <==> now - v.time >= minutes * 60 * 1_000_000_000
  {
    var d, k := now - v.time, minutes * 60;
    if d >= 0 {
      WholeSeconds(d, k);
    }
  }

  lemma WholeSeconds(d: nat, k: nat)
    ensures d / 1_000_000_000 >= k <==> d >= k * 1_000_000_000
  {
    assert d == 1_000_000_000 * (d / 1_000_000_000) + d % 1_000_000_000;
  }

  lemma ExpiredStays(v: Value, now: int, later: int, minutes: int)
    requires Expired(v, now, minutes) && now <= later
    ensures Expired(v, later, minutes)
  {}

  lemma FreshIsLive(code: string, now: int, minutes: int)
    requires minutes > 0
    ensures !Expired(Value(code, now), now, minutes)
  {}

  /** Cleaning up takes exactly the codes whose minutes are over, and changes no other. */
  lemma PurgeExactly(store: Store, now: int, minutes: int, k: string)
    requires minutes > 0
    ensures k in Purged(store, now, minutes) <==> k in store && now - store[k].time < minutes * 60 * 1_000_000_000
    ensures k in Purged(store, now, minutes) ==> Purged(store, now, minutes)[k] == store[k]
  {
    if k in store {
      ExpiredExactly(store[k], now, minutes);
    }
  }

  /** A registration that makes the table larger than ten leaves exactly the codes that are still good. */
  lemma RegisterPurges(store: Store, at: string, code: string, now: int, minutes: int, k: string)
    requires code != "" && minutes > 0
    ensures var taken, after := store[at := Value(code, now)], RegisterStep(store, at, code, now, minutes);
            && (k in after <==> k in taken && (|taken| <= 10 || now - taken[k].time < minutes * 60 * 1_000_000_000))
            && (k in after ==> after[k] == taken[k])
  {
    PurgeExactly(store[at := Value(code, now)], now, minutes, k);
  }

  lemma PurgeKeepsLive(store: Store, now: int, minutes: int, k: string)
    ensures k in Purged(store, now, minutes) <==> k in store && !Expired(store[k], now, minutes)
    ensures k in Purged(store, now, minutes) ==> Purged(store, now, minutes)[k] == store[k]
  {}

  /** What is stored at one place after an event, given what was there. */
  ghost predicate Tracks(store: Store, place: string, events: seq<Event>, r: int, now: int, minutes: int) {
    && (place in store ==> 0 <= r < |events| && store[place] == ValueOf(events[r]))
    && (0 <= r < |events| && place !in store ==> Expired(ValueOf(events[r]), now, minutes))
  }

  lemma RunStep(events: seq<Event>, n: nat, minutes: int, hash: Hash)
    requires n < |events|
    ensures Run(events[..n + 1], minutes, hash) == Step(Run(events[..n], minutes, hash), events[n], minutes, hash)
  {
    assert events[..n + 1][..n] == events[..n];
  }

  lemma RegisterTracks(store: Store, place: string, events: seq<Event>, r: int, n: nat, minutes: int, hash: Hash)
    requires n < |events| && events[n].Register?
    requires Tracks(store, place, events, r, events[n].now, minutes)
    ensures var r' := if Place(events[n], hash) == place && Taken(events[n], minutes) then n else r;
            Tracks(Step(store, events[n], minutes, hash), place, events, r', events[n].now, minutes)
  {
    var e := events[n];
    if minutes > 0 {
      FreshIsLive(e.code, e.now, minutes);
    }
    PurgeKeepsLive(store[Place(e, hash) := Value(e.code, e.now)], e.now, minutes, place);
  }

  /** What the store accepts is what the events let pass. */
  lemma AcceptsGranted(store: Store, place: string, events: seq<Event>, r: int, e: Event, minutes: int)
    requires Tracks(store, place, events, r, e.now, minutes) && r < |events|
    requires r >= 0 ==> Taken(events[r], minutes)
    ensures Accepts(store, place, e.code, e.now, minutes) <==> r >= 0 && Grants(events[r], e, minutes)
  {
    if r >= 0 {
      ExpiredExactly(ValueOf(events[r]), e.now, minutes);
    }
  }

  lemma VerifyTracks(store: Store, place: string, events: seq<Event>, r: int, n: nat, minutes: int, hash: Hash)
    requires n < |events| && events[n].Verify?
    requires Tracks(store, place, events, r, events[n].now, minutes)
    ensures var e := events[n];
            var r' := if Place(e, hash) == place && Accepts(store, place, e.code, e.now, minutes) then -1 else r;
            Tracks(Step(store, e, minutes, hash), place, events, r', e.now, minutes)
  {}

  /** In every run what is stored for an identity is its latest registration, unless that has expired. */
  lemma {:induction false} RunTracks(events: seq<Event>, n: nat, key: string, purpose: string, minutes: int, hash: Hash, now: int)
    requires n <= |events| && ClockOrdered(events) && Injective(hash)
    requires n > 0 ==> events[n - 1].now <= now
    ensures Tracks(Run(events[..n], minutes, hash), hash(Identity(key, purpose)), events,
                   Latest(events, n, key, purpose, minutes), now, minutes)
  {
    if n > 0 {
      var e, place := events[n - 1], hash(Identity(key, purpose));
      var store, r := Run(events[..n - 1], minutes, hash), Latest(events, n - 1, key, purpose, minutes);
      RunTracks(events, n - 1, key, purpose, minutes, hash, e.now);
      RunStep(events, n - 1, minutes, hash);
      PlaceIsIdentity(e, key, purpose, hash);
      if e.Register? {
        RegisterTracks(store, place, events, r, n - 1, minutes, hash);
      } else {
        AcceptsGranted(store, place, events, r, e, minutes);
        VerifyTracks(store, place, events, r, n - 1, minutes, hash);
      }
      TracksLater(Run(events[..n], minutes, hash), place, events, Latest(events, n, key, purpose, minutes), e.now, now, minutes);
    }
  }

  lemma TracksLater(store: Store, place: string, events: seq<Event>, r: int, now: int, later: int, minutes: int)
    requires Tracks(store, place, events, r, now, minutes) && now <= later
    ensures Tracks(store, place, events, r, later, minutes)
  {
    if 0 <= r < |events| && place !in store {
      ExpiredStays(ValueOf(events[r]), now, later, minutes);
    }
  }

  /** In every run the store lets a verification pass exactly when the events do. */
  lemma StoreFollowsEvents(events: seq<Event>, i: nat, minutes: int, hash: Hash)
    requires i < |events| && ClockOrdered(events) && Injective(hash)
    ensures Succeeds(events, i, minutes, hash) <==> Passes(events, i, minutes)
  {
    var e := events[i];
    RunTracks(events, i, e.key, e.purpose, minutes, hash, e.now);
    AcceptsGranted(Run(events[..i], minutes, hash), Place(e, hash), events, Latest(events, i, e.key, e.purpose, minutes), e, minutes);
  }

  /**
   In every run a verification succeeds exactly when the latest registration of its key and purpose
   has the same code, has not expired and has not been used up.
   */
  lemma SucceedsExactly(events: seq<Event>, i: nat, minutes: int, hash: Hash)
    requires i < |events| && events[i].Verify? && ClockOrdered(events) && Injective(hash)
    ensures Succeeds(events, i, minutes, hash) <==>
              exists r :: && Stands(events, r, i, events[i].key, events[i].purpose, minutes)
                          && events[r].code == events[i].code && events[i].now - events[r].now < minutes * 60 * 1_000_000_000
  {
    var e := events[i];
    StoreFollowsEvents(events, i, minutes, hash);
    LatestStands(events, i, e.key, e.purpose, minutes, Latest(events, i, e.key, e.purpose, minutes));
    if r :| Stands(events, r, i, e.key, e.purpose, minutes) {
      LatestStands(events, i, e.key, e.purpose, minutes, r);
    }
  }

  /** So a code that was registered once is accepted at most once. */
  lemma AcceptedOnce(events: seq<Event>, i: nat, j: nat, minutes: int, hash: Hash)
    requires i < j < |events| && ClockOrdered(events) && Injective(hash)
    requires Succeeds(events, i, minutes, hash) && Succeeds(events, j, minutes, hash)
    requires SameId(events[i], events[j].key, events[j].purpose)
    ensures exists r :: i < r < j && SameId(events[r], events[j].key, events[j].purpose) && Taken(events[r], minutes) && events[r].code == events[j].code
  {
    StoreFollowsEvents(events, i, minutes, hash);
    SucceedsExactly(events, j, minutes, hash);
    var r :| Stands(events, r, j, events[j].key, events[j].purpose, minutes) && Grants(events[r], events[j], minutes);
    assert r != i;
  }
}
