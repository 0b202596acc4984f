/**
 The limiter agrees with the full-history limiter on every call of every run, and the
 reservations of a key never overbook its limit.
 */
module RateLimitTheorems {
  import opened RateLimitModel

  // ---------------------------------------------------------------------------------------
  // Queues and windows
  // ---------------------------------------------------------------------------------------

  /** Popping the expired head stops at the first timestamp still in the window. */
  lemma {:induction false} RemoveExpiredSplits(queue: seq<int>, now: int, duration: int) returns (n: nat)
    ensures n <= |queue| && RemoveExpired(queue, now, duration) == queue[n..]
    ensures forall i :: 0 <= i < n ==> now - queue[i] >= duration
    ensures n < |queue| ==> now - queue[n] < duration
  {
    if queue != [] && now - queue[0] >= duration {
      var m := RemoveExpiredSplits(queue[1..], now, duration);
      n := m + 1;
      assert queue[1..][m..] == queue[n..];
      forall i | 0 <= i < n ensures now - queue[i] >= duration {
        assert i == 0 || queue[i] == queue[1..][i - 1];
      }
    } else {
      n := 0;
    }
  }

  /** Counting the whole history is counting what follows an expired prefix of it. */
  lemma {:induction false} RecentAfterPrefix(history: seq<int>, n: nat, now: int, duration: int)
    requires n <= |history|
    requires forall i :: 0 <= i < n ==> now - history[i] >= duration
    requires forall i :: n <= i < |history| ==> now - history[i] < duration
    ensures Recent(history, now, duration) == history[n..]
  {
    if history != [] {
      var tail := history[1..];
      if n == 0 {
        RecentAfterPrefix(tail, 0, now, duration);
        assert history == [history[0]] + tail;
      } else {
        RecentAfterPrefix(tail, n - 1, now, duration);
        assert tail[n - 1..] == history[n..];
      }
    }
  }

  /** What trimming drops, and what was dropped before, is outside the window; what it keeps is inside. */
  lemma WindowSplits(queue: seq<int>, history: seq<int>, bound: int, second: int, now: int, duration: int, n: nat)
    requires Tracks(queue, history, bound, second) && second <= now && Within(duration, bound) && n <= |queue|
    requires forall i :: 0 <= i < n ==> now - queue[i] >= duration
    requires n < |queue| ==> now - queue[n] < duration
    ensures var m := |history| - |queue|;
            && (forall i :: 0 <= i < m + n ==> now - history[i] >= duration)
            && (forall i :: m + n <= i < |history| ==> now - history[i] < duration)
  {
    var m := |history| - |queue|;
    forall i | 0 <= i < m + n ensures now - history[i] >= duration {
      assert i < m || history[i] == queue[i - m];
    }
    assert n < |queue| ==> history[m + n] == queue[n];
  }

  /** Trimmed with a window it was never cut short of, the queue is exactly the part of the full history inside that window. */
  lemma WindowIsRecent(queue: seq<int>, history: seq<int>, bound: int, second: int, now: int, duration: int)
    requires Tracks(queue, history, bound, second) && second <= now && Within(duration, bound)
    ensures RemoveExpired(queue, now, duration) == Recent(history, now, duration)
  {
    var n := RemoveExpiredSplits(queue, now, duration);
    var m := |history| - |queue|;
    WindowSplits(queue, history, bound, second, now, duration, n);
    RecentAfterPrefix(history, m + n, now, duration);
    assert queue[n..] == history[m + n..];
  }

  /** Trimming with a window no shorter than the bound, at a time already past, drops nothing the bound still reaches. */
  lemma TrimmedTracks(queue: seq<int>, history: seq<int>, bound: int, second: int, at: int, duration: int, later: int)
    requires Tracks(queue, history, bound, second) && second <= later && at <= later && Within(bound, duration)
    ensures Tracks(RemoveExpired(queue, at, duration), history, bound, later)
  {
    var n := RemoveExpiredSplits(queue, at, duration);
    var m := |history| - |queue|;
    forall i | 0 <= i < m + n ensures later - history[i] >= bound {
      assert i < m || history[i] == queue[i - m];
    }
    assert queue[n..] == history[m + n..];
  }

  lemma RecordedTracks(queue: seq<int>, history: seq<int>, duration: int, second: int)
    requires Tracks(queue, history, duration, second)
    ensures Tracks(queue + [second], history + [second], duration, second)
  {
    var h, q := history + [second], queue + [second];
    assert h[|h| - |q|..] == history[|history| - |queue|..] + [second];
  }

  // ---------------------------------------------------------------------------------------
  // The LRU list
  // ---------------------------------------------------------------------------------------

  lemma {:induction false} WithoutDescends(list: seq<string>, store: map<string, Entry>, key: string)
    requires Descending(list, store)
    ensures Descending(Without(list, key), store)
    ensures forall k :: k in Without(list, key) <==> k in list && k != key
  {
    if list != [] {
      var tail := list[1..];
      assert Descending(tail, store);
      WithoutDescends(tail, store, key);
      forall k ensures k in list <==> k == list[0] || k in tail {
        assert list == [list[0]] + tail;
      }
      var rest := Without(tail, key);
      forall k | k in rest ensures k != list[0] && store[k].lastActive <= store[list[0]].lastActive {
        var i :| 0 <= i < |tail| && tail[i] == k;
        assert list[i + 1] == k;
      }
    }
  }

  lemma {:induction false} KeepDescends(list: seq<string>, store: map<string, Entry>, kept: map<string, Entry>)
    requires Descending(list, store)
    requires forall k :: k in kept ==> k in store && kept[k].lastActive == store[k].lastActive
    ensures Descending(Keep(list, kept), kept)
    ensures forall k :: k in Keep(list, kept) <==> k in list && k in kept
  {
    if list != [] {
      var tail := list[1..];
      assert Descending(tail, store);
      KeepDescends(tail, store, kept);
      forall k ensures k in list <==> k == list[0] || k in tail {
        assert list == [list[0]] + tail;
      }
      var rest := Keep(tail, kept);
      forall k | k in rest ensures k != list[0] && store[k].lastActive <= store[list[0]].lastActive {
        var i :| 0 <= i < |tail| && tail[i] == k;
        assert list[i + 1] == k;
      }
    }
  }

  lemma ConsDescends(key: string, rest: seq<string>, store: map<string, Entry>)
    requires Descending(rest, store) && key in store && key !in rest
    requires forall k :: k in rest ==> store[k].lastActive <= store[key].lastActive
    ensures Descending([key] + rest, store)
  {
    var list := [key] + rest;
    forall i, j | 0 <= i < j < |list|
      ensures list[i] != list[j] && store[list[j]].lastActive <= store[list[i]].lastActive
    {
      assert list[j] == rest[j - 1] && rest[j - 1] in rest;
      assert i == 0 || list[i] == rest[i - 1];
    }
  }

  /** Touching a key at a time no earlier than any activity keeps the list in order. */
  lemma TouchedWellFormed(l: Limiter, key: string, duration: int, now: int, queue: seq<int>)
    requires WellFormed(l) && ActiveBy(l, now)
    ensures WellFormed(Touched(l, key, duration, now, queue)) && ActiveBy(Touched(l, key, duration, now, queue), now)
  {
    var t := Touched(l, key, duration, now, queue);
    WithoutDescends(l.lru, l.store, key);
    var rest := Without(l.lru, key);
    assert Descending(rest, t.store) by {
      forall k | k in rest ensures k in t.store && t.store[k] == l.store[k] {}
    }
    ConsDescends(key, rest, t.store);
    forall k | k in t.store ensures k in [key] + rest {
      assert k == key || k in rest;
    }
  }

  /** A sweep removes from the list precisely the keys it removes from the store. */
  lemma SweepWellFormed(l: Limiter, now: int)
    requires WellFormed(l)
    ensures WellFormed(SweepStep(l, now))
    ensures forall time :: ActiveBy(l, time) ==> ActiveBy(SweepStep(l, now), time)
  {
    if l.expiration > 0 {
      KeepDescends(l.lru, l.store, SweepStep(l, now).store);
    }
  }

  lemma {:induction false} EmptiedExactly(queue: seq<int>, now: int, duration: int)
    ensures RemoveExpired(queue, now, duration) == [] <==> forall i :: 0 <= i < |queue| ==> now - queue[i] >= duration
  {
    if queue != [] && now - queue[0] >= duration {
      EmptiedExactly(queue[1..], now, duration);
      assert forall i :: 0 < i < |queue| ==> queue[i] == queue[1..][i - 1];
    }
  }

  /**
   By times and stamps: a sweep removes a key exactly when it has not been used for the expiration time and each of
   its requests is at least its window old. Other keys keep their entry; an idle one loses expired requests from the
   front, one in use loses none. Reservations stay.
   */
  lemma SweepExactly(l: Limiter, now: int, key: string)
    requires l.expiration > 0 && key in l.store
    ensures var e, after := l.store[key], SweepStep(l, now);
            && (key !in after.store <==>
                  && now - e.lastActive >= l.expiration
                  && forall i :: 0 <= i < |e.requests| ==> Unix(now) - e.requests[i] >= e.duration)
            && (key in after.store ==>
                  && after.store[key].lastActive == e.lastActive && after.store[key].duration == e.duration
                  && (now - e.lastActive < l.expiration ==> after.store[key].requests == e.requests)
                  && (now - e.lastActive >= l.expiration ==>
                        exists n :: && 0 <= n < |e.requests| && after.store[key].requests == e.requests[n..]
                                    && Unix(now) - e.requests[n] < e.duration
                                    && forall i :: 0 <= i < n ==> Unix(now) - e.requests[i] >= e.duration))
            && after.reservations == l.reservations
  {
    var e := l.store[key];
    EmptiedExactly(e.requests, Unix(now), e.duration);
    var n := RemoveExpiredSplits(e.requests, Unix(now), e.duration);
  }

  // ---------------------------------------------------------------------------------------
  // Handles
  // ---------------------------------------------------------------------------------------

  lemma {:induction false} OpenedHandle(handles: seq<Handle>, handle: Handle, key: string)
    ensures OpenHandles(handles + [handle], key)
            == OpenHandles(handles, key) + (if handle.open && handle.key == key then 1 else 0)
  {
    if handles == [] {
      assert handles + [handle] == [handle];
    } else {
      assert (handles + [handle])[1..] == handles[1..] + [handle];
      OpenedHandle(handles[1..], handle, key);
    }
  }

  lemma {:induction false} ClosedHandle(handles: seq<Handle>, h: nat, key: string)
    requires h < |handles| && handles[h].open
    ensures OpenHandles(handles[h := handles[h].(open := false)], key)
            == OpenHandles(handles, key) - (if handles[h].key == key then 1 else 0)
  {
    var closed := handles[h := handles[h].(open := false)];
    if h == 0 {
      assert closed[1..] == handles[1..];
    } else {
      assert closed[1..] == handles[1..][h - 1 := handles[h].(open := false)];
      ClosedHandle(handles[1..], h - 1, key);
    }
  }

  // ---------------------------------------------------------------------------------------
  // Refinement
  // ---------------------------------------------------------------------------------------

  lemma UnixMonotone(time: int, later: int)
    requires time <= later
    ensures Unix(time) <= Unix(later)
  {}

  lemma CoupledLater(w: World, ledger: Ledger, bounds: string -> int, time: int, later: int)
    requires Coupled(w, ledger, bounds, time) && time <= later
    ensures Coupled(w, ledger, bounds, later)
  {
    UnixMonotone(time, later);
    forall k ensures KeyCoupled(w, ledger, bounds, later, k) {
      assert KeyCoupled(w, ledger, bounds, time, k);
    }
  }

  /** Coupled for windows as long as `longer`, and so for shorter ones. */
  lemma CoupledBelow(w: World, ledger: Ledger, longer: string -> int, bounds: string -> int, time: int)
    requires Coupled(w, ledger, longer, time) && forall k :: Within(bounds(k), longer(k))
    ensures Coupled(w, ledger, bounds, time)
  {
    forall k ensures KeyCoupled(w, ledger, bounds, time, k) {
      assert KeyCoupled(w, ledger, longer, time, k) && Within(bounds(k), longer(k));
    }
    forall h | h in w.handles ensures Within(bounds(h.key), h.duration) {
      assert Within(bounds(h.key), longer(h.key));
    }
  }

  ghost function TouchedWorld(w: World, key: string, duration: int, now: int, record: bool): World {
    var window := Window(w.limiter, key, duration, now);
    w.(limiter := Touched(w.limiter, key, duration, now, if record then window + [Unix(now)] else window))
  }

  ghost function TouchedLedger(ledger: Ledger, key: string, now: int, record: bool): Ledger {
    if record then Recorded(ledger, key, now) else ledger
  }

  /** The key touched: its trimmed queue still tracks the history, and may take one more timestamp. */
  lemma TouchedKey(w: World, ledger: Ledger, bounds: string -> int, key: string, duration: int, now: int, record: bool)
    requires KeyCoupled(w, ledger, bounds, now, key) && Within(bounds(key), duration)
    ensures KeyCoupled(TouchedWorld(w, key, duration, now, record), TouchedLedger(ledger, key, now, record), bounds, now, key)
  {
    var window := Window(w.limiter, key, duration, now);
    TrimmedTracks(Queued(w.limiter, key), History(ledger, key), bounds(key), Unix(now), Unix(now), duration, Unix(now));
    RecordedTracks(window, History(ledger, key), bounds(key), Unix(now));
  }

  lemma UntouchedKey(w: World, ledger: Ledger, bounds: string -> int, key: string, duration: int, now: int, record: bool, k: string)
    requires KeyCoupled(w, ledger, bounds, now, k) && k != key
    ensures KeyCoupled(TouchedWorld(w, key, duration, now, record), TouchedLedger(ledger, key, now, record), bounds, now, k)
  {
    var w', ledger' := TouchedWorld(w, key, duration, now, record), TouchedLedger(ledger, key, now, record);
    assert Queued(w'.limiter, k) == Queued(w.limiter, k) && History(ledger', k) == History(ledger, k);
  }

  /** Touching `key` with its trimmed queue, or with one more timestamp, stays coupled. */
  lemma TouchedCoupled(w: World, ledger: Ledger, bounds: string -> int, key: string, duration: int, now: int, record: bool)
    requires Coupled(w, ledger, bounds, now) && Within(bounds(key), duration)
    ensures Coupled(TouchedWorld(w, key, duration, now, record), TouchedLedger(ledger, key, now, record), bounds, now)
  {
    var w', ledger' := TouchedWorld(w, key, duration, now, record), TouchedLedger(ledger, key, now, record);
    TouchedWellFormed(w.limiter, key, duration, now, w'.limiter.store[key].requests);
    forall k ensures KeyCoupled(w', ledger', bounds, now, k) {
      assert KeyCoupled(w, ledger, bounds, now, k);
      if k == key {
        TouchedKey(w, ledger, bounds, key, duration, now, record);
      } else {
        UntouchedKey(w, ledger, bounds, key, duration, now, record, k);
      }
    }
  }

  /** What a call counts in the queue is what it would count in the full history. */
  lemma CountsAgree(w: World, ledger: Ledger, bounds: string -> int, key: string, now: int)
    requires Coupled(w, ledger, bounds, now)
    ensures Window(w.limiter, key, bounds(key), now) == Recent(History(ledger, key), Unix(now), bounds(key))
    ensures Held(w.limiter, key) == OpenHandles(ledger.handles, key)
  {
    assert KeyCoupled(w, ledger, bounds, now, key);
    WindowIsRecent(Queued(w.limiter, key), History(ledger, key), bounds(key), Unix(now), Unix(now), bounds(key));
  }

  lemma CoupledRequest(w: World, ledger: Ledger, bounds: string -> int, op: Op)
    requires op.Request? && op.duration == bounds(op.key) && Coupled(w, ledger, bounds, op.now)
    ensures Step(w, op).1 == LedgerStep(ledger, op).1
    ensures Coupled(Step(w, op).0, LedgerStep(ledger, op).0, bounds, op.now)
  {
    CountsAgree(w, ledger, bounds, op.key, op.now);
    TouchedCoupled(w, ledger, bounds, op.key, op.duration, op.now, Step(w, op).1);
  }

  lemma CoupledGrant(w: World, ledger: Ledger, bounds: string -> int, key: string, duration: int, now: int)
    requires Coupled(w, ledger, bounds, now) && Within(bounds(key), duration)
    ensures
      var handles := w.handles + [Handle(key, duration, true)];
      var l := w.limiter.(reservations := w.limiter.reservations[key := Held(w.limiter, key) + 1]);
      Coupled(World(l, handles), ledger.(handles := handles), bounds, now)
  {
    var handles := w.handles + [Handle(key, duration, true)];
    var w' := World(w.limiter.(reservations := w.limiter.reservations[key := Held(w.limiter, key) + 1]), handles);
    forall k ensures KeyCoupled(w', ledger.(handles := handles), bounds, now, k) {
      assert KeyCoupled(w, ledger, bounds, now, k);
      OpenedHandle(w.handles, Handle(key, duration, true), k);
    }
  }

  lemma CoupledReserve(w: World, ledger: Ledger, bounds: string -> int, op: Op)
    requires op.Reserve? && op.duration == bounds(op.key) && Coupled(w, ledger, bounds, op.now)
    ensures Step(w, op).1 == LedgerStep(ledger, op).1
    ensures Coupled(Step(w, op).0, LedgerStep(ledger, op).0, bounds, op.now)
  {
    var Reserve(key, max, duration, now) := op;
    CountsAgree(w, ledger, bounds, key, now);
    TouchedCoupled(w, ledger, bounds, key, duration, now, false);
    var touched := TouchedWorld(w, key, duration, now, false);
    ReserveSteps(w, key, max, duration, now);
    if Step(w, op).1 {
      CoupledGrant(touched, ledger, bounds, key, duration, now);
    }
  }

  /** A reservation step: the key is touched, and a place taken if there is one. */
  lemma ReserveSteps(w: World, key: string, max: int, duration: int, now: int)
    ensures var (w', ok) := Step(w, Reserve(key, max, duration, now));
            var touched := TouchedWorld(w, key, duration, now, false);
            && (ok <==> |Window(w.limiter, key, duration, now)| + Held(w.limiter, key) < max && max > 0
                        && |Window(w.limiter, key, duration, now)| < max)
            && (ok ==> w' == World(touched.limiter.(reservations := touched.limiter.reservations[key := Held(touched.limiter, key) + 1]),
                                   w.handles + [Handle(key, duration, true)]))
            && (!ok ==> w' == if max <= 0 then w else touched)
  {}

  lemma CoupledRelease(w: World, ledger: Ledger, bounds: string -> int, h: nat, now: int)
    requires Coupled(w, ledger, bounds, now) && h < |w.handles| && w.handles[h].open
    ensures
      var closed := w.handles[h := w.handles[h].(open := false)];
      var l := w.limiter.(reservations := Release(w.limiter.reservations, w.handles[h].key));
      Coupled(World(l, closed), ledger.(handles := closed), bounds, now)
  {
    var handle := w.handles[h];
    assert handle in w.handles;
    var closed := w.handles[h := handle.(open := false)];
    var w' := World(w.limiter.(reservations := Release(w.limiter.reservations, handle.key)), closed);
    forall k ensures KeyCoupled(w', ledger.(handles := closed), bounds, now, k) {
      assert KeyCoupled(w, ledger, bounds, now, k);
      ClosedHandle(w.handles, h, k);
    }
  }

  /** A completion trims with the window of its reservation, which no later call of the key reaches beyond. */
  lemma CoupledComplete(w: World, ledger: Ledger, bounds: string -> int, op: Op)
    requires op.Complete? && Coupled(w, ledger, bounds, op.now)
    ensures Coupled(Step(w, op).0, LedgerStep(ledger, op).0, bounds, op.now)
  {
    var Complete(h, success, now) := op;
    if h < |w.handles| && w.handles[h].open {
      CoupledRelease(w, ledger, bounds, h, now);
      if success {
        var handle := w.handles[h];
        assert handle in w.handles;
        var closed := w.handles[h := handle.(open := false)];
        var w' := World(w.limiter.(reservations := Release(w.limiter.reservations, handle.key)), closed);
        TouchedCoupled(w', ledger.(handles := closed), bounds, handle.key, handle.duration, now, true);
      }
    }
  }

  /** What a sweep leaves of one key: its queue as it was, or trimmed with the window it was last used with. */
  lemma SweptQueue(l: Limiter, key: string, now: int)
    ensures var l', queue := SweepStep(l, now), Queued(l, key);
            && (key in l'.store ==> key in l.store && l'.store[key].duration == l.store[key].duration)
            && Held(l', key) == Held(l, key)
            && (Queued(l', key) == queue ||
                (key in l.store && Queued(l', key) == RemoveExpired(queue, Unix(now), l.store[key].duration)))
  {}

  /** A key stays coupled when its queue stays or is trimmed at a time already past. */
  lemma TrimmedKey(w: World, l: Limiter, ledger: Ledger, bounds: string -> int, second: int, time: int, key: string)
    requires KeyCoupled(w, ledger, bounds, time, key) && second <= Unix(time)
    requires key in l.store ==> key in w.limiter.store && l.store[key].duration == w.limiter.store[key].duration
    requires Held(l, key) == Held(w.limiter, key)
    requires
      || Queued(l, key) == Queued(w.limiter, key)
      || (key in w.limiter.store && Queued(l, key) == RemoveExpired(Queued(w.limiter, key), second, w.limiter.store[key].duration))
    ensures KeyCoupled(World(l, w.handles), ledger, bounds, time, key)
  {
    if key in w.limiter.store {
      TrimmedTracks(Queued(w.limiter, key), History(ledger, key), bounds(key), Unix(time), second,
                    w.limiter.store[key].duration, Unix(time));
    }
  }

  lemma SweptKey(w: World, ledger: Ledger, bounds: string -> int, now: int, time: int, key: string)
    requires KeyCoupled(w, ledger, bounds, time, key) && now <= time
    ensures KeyCoupled(World(SweepStep(w.limiter, now), w.handles), ledger, bounds, time, key)
  {
    UnixMonotone(now, time);
    SweptQueue(w.limiter, key, now);
    TrimmedKey(w, SweepStep(w.limiter, now), ledger, bounds, Unix(now), time, key);
  }

  lemma CoupledSweep(w: World, ledger: Ledger, bounds: string -> int, now: int, time: int)
    requires Coupled(w, ledger, bounds, time) && now <= time
    ensures Coupled(Step(w, Sweep(now)).0, ledger, bounds, time)
  {
    SweepWellFormed(w.limiter, now);
    forall k ensures KeyCoupled(Step(w, Sweep(now)).0, ledger, bounds, time, k) {
      assert KeyCoupled(w, ledger, bounds, time, k);
      SweptKey(w, ledger, bounds, now, time, k);
    }
  }

  /** One operation, in lock step with the full-history limiter: same answer, still coupled. */
  lemma CoupledStep(w: World, ledger: Ledger, bounds: string -> int, op: Op, time: int)
    requires Counts(op) ==> op.duration == bounds(op.key)
    requires op.now <= time
    requires Coupled(w, ledger, bounds, if op.Sweep? then time else op.now)
    ensures Step(w, op).1 == LedgerStep(ledger, op).1
    ensures Coupled(Step(w, op).0, LedgerStep(ledger, op).0, bounds, time)
  {
    match op
    case Request(_, _, _, now) =>
      CoupledRequest(w, ledger, bounds, op);
      CoupledLater(Step(w, op).0, LedgerStep(ledger, op).0, bounds, now, time);
    case Reserve(_, _, _, now) =>
      CoupledReserve(w, ledger, bounds, op);
      CoupledLater(Step(w, op).0, LedgerStep(ledger, op).0, bounds, now, time);
    case Complete(_, _, now) =>
      CoupledComplete(w, ledger, bounds, op);
      CoupledLater(Step(w, op).0, LedgerStep(ledger, op).0, bounds, now, time);
    case Sweep(now) =>
      CoupledSweep(w, ledger, bounds, now, time);
  }

  /** The bounds in force when `op` runs: its own window for its key. */
  ghost function BoundsAt(bounds: string -> int, op: Op): string -> int {
    k => if Counts(op) && k == op.key then op.duration else bounds(k)
  }

  /** Without its last operation, a run is bounded by that operation's window, and lies before its time. */
  lemma Earlier(ops: seq<Op>, bounds: string -> int, time: int)
    requires ops != [] && ClockOrdered(ops) && NotBefore(ops, time) && NeverLonger(ops) && AtLeast(ops, bounds)
    ensures var before, op := ops[..|ops| - 1], ops[|ops| - 1];
            && op.now <= time
            && ClockOrdered(before) && NotBefore(before, if op.Sweep? then time else op.now)
            && NeverLonger(before) && AtLeast(before, BoundsAt(bounds, op))
            && (forall k :: Within(bounds(k), BoundsAt(bounds, op)(k)))
  {
    var n := |ops| - 1;
    var before, op := ops[..n], ops[n];
    assert op in ops;
    forall o | o in before
      ensures o in ops && (!op.Sweep? ==> o.now <= op.now)
      ensures Counts(o) ==> Within(BoundsAt(bounds, op)(o.key), o.duration)
    {
      var i :| 0 <= i < n && ops[i] == o;
    }
  }

  /**
   For every run of requests, reservations, completions and sweeps over any keys in which the
   windows of a key never grow, the limiter gives exactly the answers of the limiter that forgets
   nothing.
   */
  lemma {:induction false} RefinesFullHistory(expiration: int, ops: seq<Op>, bounds: string -> int, time: int)
    requires ClockOrdered(ops) && NotBefore(ops, time) && NeverLonger(ops) && AtLeast(ops, bounds)
    ensures Run(expiration, ops).1 == LedgerRun(ops).1
    ensures Coupled(Run(expiration, ops).0, LedgerRun(ops).0, bounds, time)
    decreases |ops|
  {
    if ops != [] {
      var before, op := ops[..|ops| - 1], ops[|ops| - 1];
      var longer := BoundsAt(bounds, op);
      Earlier(ops, bounds, time);
      RefinesFullHistory(expiration, before, longer, if op.Sweep? then time else op.now);
      CoupledStep(Run(expiration, before).0, LedgerRun(before).0, longer, op, time);
      CoupledBelow(Run(expiration, ops).0, LedgerRun(ops).0, longer, bounds, time);
    }
  }

  /** Whatever the durations, the list is in order in every run: what the sweep's early stop relies on. */
  lemma {:induction false} RunWellFormed(expiration: int, ops: seq<Op>, time: int)
    requires ClockOrdered(ops) && NotBefore(ops, time)
    ensures WellFormed(Run(expiration, ops).0.limiter) && ActiveBy(Run(expiration, ops).0.limiter, time)
  {
    if ops != [] {
      var n := |ops| - 1;
      var before, op := ops[..n], ops[n];
      assert op in ops;
      forall o | o in before ensures o in ops && (!op.Sweep? ==> o.now <= op.now) {
        var i :| 0 <= i < n && ops[i] == o;
      }
      RunWellFormed(expiration, before, if op.Sweep? then time else op.now);
      StepWellFormed(Run(expiration, before).0, op, time);
    }
  }

  lemma StepWellFormed(w: World, op: Op, time: int)
    requires WellFormed(w.limiter) && ActiveBy(w.limiter, if op.Sweep? then time else op.now) && op.now <= time
    ensures WellFormed(Step(w, op).0.limiter) && ActiveBy(Step(w, op).0.limiter, time)
  {
    var l := w.limiter;
    match op
    case Request(key, _, d, now) =>
      TouchedWellFormed(l, key, d, now, Window(l, key, d, now));
      TouchedWellFormed(l, key, d, now, Window(l, key, d, now) + [Unix(now)]);
    case Reserve(key, _, d, now) =>
      TouchedWellFormed(l, key, d, now, Window(l, key, d, now));
    case Complete(h, _, now) =>
      if h < |w.handles| {
        var released := l.(reservations := Release(l.reservations, w.handles[h].key));
        var Handle(key, d, _) := w.handles[h];
        TouchedWellFormed(released, key, d, now, Window(l, key, d, now) + [Unix(now)]);
      }
    case Sweep(now) =>
      SweepWellFormed(l, now);
  }

  // ---------------------------------------------------------------------------------------
  // Which window lengths agree
  // ---------------------------------------------------------------------------------------

  lemma {:induction false} LatestTime(ops: seq<Op>) returns (time: int)
    ensures NotBefore(ops, time)
  {
    if ops == [] {
      time := 0;
    } else {
      var t := LatestTime(ops[1..]);
      time := if ops[0].now > t then ops[0].now else t;
      assert ops == [ops[0]] + ops[1..];
    }
  }

  /** The answers alone, with no bound to name. */
  lemma AnswersAgree(expiration: int, ops: seq<Op>)
    requires ClockOrdered(ops) && NeverLonger(ops)
    ensures Run(expiration, ops).1 == LedgerRun(ops).1
  {
    var time := LatestTime(ops);
    RefinesFullHistory(expiration, ops, k => 0, time);
  }

  /** The calls of each key name the window `d` first and `d'` from some point on. */
  ghost predicate FirstThen(ops: seq<Op>, d: int, d': int) {
    && (forall op :: op in ops && Counts(op) ==> op.duration == d || op.duration == d')
    && (forall i, j :: 0 <= i < j < |ops| && Counts(ops[i]) && Counts(ops[j]) && ops[i].key == ops[j].key ==>
          ops[i].duration == d || ops[j].duration == d')
  }

  /** Two requests with the shorter window, the second of which drops the first, then one with the longer. */
  function Growing(key: string, d: int, d': int): seq<Op> {
    var n := (if d < 0 then 0 else d) * NANOS_PER_SECOND;
    [Request(key, 1, d, 0), Request(key, 1, d, n), Request(key, 2, d', n)]
  }

  lemma GrowingRun(expiration: int, key: string, d: int, d': int)
    requires d < d' && 0 < d'
    ensures Run(expiration, Growing(key, d, d')).1 == [true, true, true]
  {
    var n, ops := if d < 0 then 0 else d, Growing(key, d, d');
    var now := n * NANOS_PER_SECOND;
    assert Unix(0) == 0 && Unix(now) == n;
    var l0 := Limiter(map[], [], map[], expiration);
    var l1 := Touched(l0, key, d, 0, [0]);
    var l2 := Touched(l1, key, d, now, [n]);
    var none: seq<int> := [];
    assert none + [0] == [0] && none + [n] == [n];
    assert RequestStep(l0, key, 1, d, 0) == (l1, true);
    assert Window(l1, key, d, now) == [] by {
      assert RemoveExpired([0], n, d) == RemoveExpired([0][1..], n, d) == [];
    }
    assert RequestStep(l1, key, 1, d, now) == (l2, true);
    assert Window(l2, key, d', now) == [n];
    assert ops[..2][..1] == ops[..1] && ops[..1][..0] == [];
    assert Run(expiration, []) == (World(l0, []), []);
    assert Step(World(l0, []), ops[0]) == (World(l1, []), true);
    assert Run(expiration, ops[..1]).0 == World(l1, []) && Run(expiration, ops[..1]).1 == [true];
    assert Step(World(l1, []), ops[1]) == (World(l2, []), true);
    assert Run(expiration, ops[..2]).0 == World(l2, []) && Run(expiration, ops[..2]).1 == [true, true];
  }

  lemma GrowingLedger(key: string, d: int, d': int)
    requires d < d' && 0 < d'
    ensures LedgerRun(Growing(key, d, d')).1 == [true, true, false]
  {
    var n, ops := if d < 0 then 0 else d, Growing(key, d, d');
    assert Unix(0) == 0 && Unix(n * NANOS_PER_SECOND) == n;
    assert ops[..2][..1] == ops[..1] && ops[..1][..0] == [];
    assert LedgerRun(ops[..1]).1 == [true] && History(LedgerRun(ops[..1]).0, key) == [0];
    GrowingCounts(n, d, d');
    assert LedgerRun(ops[..2]).1 == [true, true] && History(LedgerRun(ops[..2]).0, key) == [0, n];
  }

  lemma GrowingCounts(n: nat, d: int, d': int)
    requires d <= n < d'
    ensures Recent([0], n, d) == [] && Recent([0, n], n, d') == [0, n]
  {
    assert [0][1..] == [] && [0, n][1..] == [n] && [n][1..] == [];
    assert Recent([n], n, d') == [n];
  }

  /** A longer window that follows a shorter one: the limiter accepts what the full history refuses, whatever the two lengths. */
  lemma ShorterWindowForgets(expiration: int, key: string, d: int, d': int)
    requires d < d' && 0 < d'
    ensures ClockOrdered(Growing(key, d, d')) && FirstThen(Growing(key, d, d'), d, d')
    ensures Run(expiration, Growing(key, d, d')).1 == [true, true, true]
    ensures LedgerRun(Growing(key, d, d')).1 == [true, true, false]
  {
    GrowingRun(expiration, key, d, d');
    GrowingLedger(key, d, d');
  }

  lemma FirstThenNeverLonger(ops: seq<Op>, d: int, d': int)
    requires FirstThen(ops, d, d') && Within(d', d)
    ensures NeverLonger(ops)
  {
    forall i, j | 0 <= i < j < |ops| && Counts(ops[i]) && Counts(ops[j]) && ops[i].key == ops[j].key
      ensures Within(ops[j].duration, ops[i].duration)
    {
      assert ops[i] in ops && ops[j] in ops;
    }
  }

  /** Going from one window length to another agrees with the full history in every run exactly when the second is not longer. */
  lemma WindowLengthsExactly(expiration: int, d: int, d': int)
    ensures (forall ops :: ClockOrdered(ops) && FirstThen(ops, d, d') ==> Run(expiration, ops).1 == LedgerRun(ops).1)
            <==> Within(d', d)
  {
    if Within(d', d) {
      forall ops | ClockOrdered(ops) && FirstThen(ops, d, d') ensures Run(expiration, ops).1 == LedgerRun(ops).1 {
        FirstThenNeverLonger(ops, d, d');
        AnswersAgree(expiration, ops);
      }
    } else {
      var ops := Growing("", d, d');
      ShorterWindowForgets(expiration, "", d, d');
      assert Run(expiration, ops).1[2] != LedgerRun(ops).1[2];
    }
  }

  // ---------------------------------------------------------------------------------------
  // Reservations
  // ---------------------------------------------------------------------------------------

  /** `key` is only ever used through Reserve, always with the limit `max`. */
  ghost predicate ReservedOnly(ops: seq<Op>, key: string, max: int) {
    forall op :: op in ops ==> (op.Request? ==> op.key != key) && (op.Reserve? && op.key == key ==> op.max == max)
  }

  lemma {:induction false} RecentShrinks(history: seq<int>, now: int, later: int, duration: int)
    requires now <= later
    ensures |Recent(history, later, duration)| <= |Recent(history, now, duration)|
  {
    if history != [] {
      RecentShrinks(history[1..], now, later, duration);
    }
  }

  lemma {:induction false} RecentAppend(history: seq<int>, t: int, now: int, duration: int)
    ensures |Recent(history + [t], now, duration)| <= |Recent(history, now, duration)| + 1
  {
    if history == [] {
      assert history + [t] == [t];
    } else {
      assert (history + [t])[1..] == history[1..] + [t];
      RecentAppend(history[1..], t, now, duration);
    }
  }

  /** A shorter window holds no more. */
  lemma {:induction false} RecentNarrows(history: seq<int>, now: int, b: int, d: int)
    requires Within(b, d) && forall i :: 0 <= i < |history| ==> history[i] <= now
    ensures |Recent(history, now, b)| <= |Recent(history, now, d)|
  {
    if history != [] {
      RecentNarrows(history[1..], now, b, d);
    }
  }

  /** One operation keeps what the key has used and holds within its limit. */
  lemma WithinLimitStep(ledger: Ledger, op: Op, key: string, max: nat, duration: int, now: int)
    requires op.now <= now
    requires (op.Request? ==> op.key != key) && (op.Reserve? && op.key == key ==> op.max == max && op.duration == duration)
    requires |Recent(History(ledger, key), Unix(if op.Sweep? then now else op.now), duration)|
             + OpenHandles(ledger.handles, key) <= max
    ensures |Recent(History(LedgerStep(ledger, op).0, key), Unix(now), duration)|
            + OpenHandles(LedgerStep(ledger, op).0.handles, key) <= max
  {
    var history := History(ledger, key);
    UnixMonotone(op.now, now);
    RecentShrinks(history, Unix(op.now), Unix(now), duration);
    match op
    case Request(_, _, _, _) =>
    case Reserve(k, _, d, _) =>
      OpenedHandle(ledger.handles, Handle(k, d, true), key);
    case Complete(h, success, at) =>
      if h < |ledger.handles| && ledger.handles[h].open {
        ClosedHandle(ledger.handles, h, key);
        RecentAppend(history, Unix(at), Unix(now), duration);
      }
    case Sweep(_) =>
  }

  /** The same of the full-history limiter over a run. */
  lemma {:induction false} LedgerNeverOverbooks(expiration: int, ops: seq<Op>, bounds: string -> int, key: string, max: nat, now: int)
    requires ClockOrdered(ops) && NotBefore(ops, now) && NeverLonger(ops) && AtLeast(ops, bounds) && ReservedOnly(ops, key, max)
    ensures |Recent(History(LedgerRun(ops).0, key), Unix(now), bounds(key))| + OpenHandles(LedgerRun(ops).0.handles, key) <= max
    decreases |ops|
  {
    if ops != [] {
      var before, op := ops[..|ops| - 1], ops[|ops| - 1];
      var longer := BoundsAt(bounds, op);
      Earlier(ops, bounds, now);
      assert op in ops;
      assert forall o :: o in before ==> o in ops;
      LedgerNeverOverbooks(expiration, before, longer, key, max, if op.Sweep? then now else op.now);
      WithinLimitStep(LedgerRun(before).0, op, key, max, longer(key), now);
      RefinesFullHistory(expiration, ops, bounds, now);
      assert KeyCoupled(Run(expiration, ops).0, LedgerRun(ops).0, bounds, now, key);
      RecentNarrows(History(LedgerRun(ops).0, key), Unix(now), bounds(key), longer(key));
    }
  }

  /**
   For a key used only through reservations, the successes still inside the window together
   with the reservations in flight never exceed the limit, at any time of any run. The
   limiter's counter is the number of handles not yet completed.
   */
  lemma ReservationsNeverOverbook(expiration: int, ops: seq<Op>, bounds: string -> int, key: string, max: nat, now: int)
    requires ClockOrdered(ops) && NotBefore(ops, now) && NeverLonger(ops) && AtLeast(ops, bounds) && ReservedOnly(ops, key, max)
    ensures
      var w := Run(expiration, ops).0;
      && Held(w.limiter, key) == OpenHandles(w.handles, key)
      && |Window(w.limiter, key, bounds(key), now)| + Held(w.limiter, key) <= max
  {
    RefinesFullHistory(expiration, ops, bounds, now);
    CountsAgree(Run(expiration, ops).0, LedgerRun(ops).0, bounds, key, now);
    LedgerNeverOverbooks(expiration, ops, bounds, key, max, now);
  }

  // ---------------------------------------------------------------------------------------
  // Last use
  // ---------------------------------------------------------------------------------------

  /** The operation uses the key: a call with a limit, or the first completion of a reservation that succeeded. */
  ghost predicate Touches(w: World, op: Op, key: string) {
    match op
    case Request(k, max, _, _) => k == key && max > 0
    case Reserve(k, max, _, _) => k == key && max > 0
    case Complete(h, success, _) => success && h < |w.handles| && w.handles[h].open && w.handles[h].key == key
    case Sweep(_) => false
  }

  /** When a key was last used, and with which window; by the operations. */
  ghost function LastTouch(expiration: int, ops: seq<Op>, key: string): (int, int)
    decreases |ops|
  {
    if ops == [] then (0, 0)
    else
      var before, op := ops[..|ops| - 1], ops[|ops| - 1];
      var w := Run(expiration, before).0;
      if Touches(w, op, key) then (op.now, if op.Complete? then w.handles[op.handle].duration else op.duration)
      else LastTouch(expiration, before, key)
  }

  /** One operation stamps the key it uses, and no other. */
  lemma StampStep(w: World, op: Op, key: string)
    requires key in Step(w, op).0.limiter.store
    ensures var e := Step(w, op).0.limiter.store[key];
            if Touches(w, op, key) then e.lastActive == op.now && e.duration == if op.Complete? then w.handles[op.handle].duration else op.duration
            else key in w.limiter.store && e.lastActive == w.limiter.store[key].lastActive && e.duration == w.limiter.store[key].duration
  {}

  /** In every run the time and the window noted for a key are those of its last use. */
  lemma {:induction false} StampsAreLastUse(expiration: int, ops: seq<Op>, key: string)
    requires key in Run(expiration, ops).0.limiter.store
    ensures var e := Run(expiration, ops).0.limiter.store[key];
            (e.lastActive, e.duration) == LastTouch(expiration, ops, key)
    decreases |ops|
  {
    var before, op := ops[..|ops| - 1], ops[|ops| - 1];
    StampStep(Run(expiration, before).0, op, key);
    if !Touches(Run(expiration, before).0, op, key) {
      StampsAreLastUse(expiration, before, key);
    }
  }
}
