/**
 The sliding-window rate limiter as a state machine over values, and the limiter it is
 meant to be: one that keeps every timestamp it ever recorded and counts them all.

 Times are nanoseconds; windows are counted in whole Unix seconds, as the limiter does.
 */
module RateLimitModel {

  const NANOS_PER_SECOND := 1_000_000_000

  /** The whole second an instant falls in. */
  function Unix(instant: int): (second: int)
    ensures second * 1_000_000_000 <= instant < (second + 1) * 1_000_000_000
  {
    instant / NANOS_PER_SECOND
  }

  datatype Entry = Entry(lastActive: int, duration: int, requests: seq<int>)

  /** `lru` lists the keys of `store`, most recently used first. */
  datatype Limiter = Limiter(
    store: map<string, Entry>,
    lru: seq<string>,
    reservations: map<string, int>,
    expiration: int)

  /** A reservation handle; `open` until the first Complete. */
  datatype Handle = Handle(key: string, duration: int, open: bool)

  datatype World = World(limiter: Limiter, handles: seq<Handle>)

  datatype Op =
    | Request(key: string, max: int, duration: int, now: int)
    | Reserve(key: string, max: int, duration: int, now: int)
    | Complete(handle: nat, success: bool, now: int)
    | Sweep(now: int)

  /** Pops timestamps off the front of the queue until one is still inside the window. */
  function RemoveExpired(queue: seq<int>, now: int, duration: int): seq<int> {
    if queue != [] && now - queue[0] >= duration
    then RemoveExpired(queue[1..], now, duration)
    else queue
  }

  function Without<T(==)>(list: seq<T>, x: T): seq<T> {
    if list == [] then []
    else if list[0] == x then Without(list[1..], x)
    else [list[0]] + Without(list[1..], x)
  }

  function Queued(l: Limiter, key: string): seq<int> {
    if key in l.store then l.store[key].requests else []
  }

  function Held(l: Limiter, key: string): int {
    if key in l.reservations then l.reservations[key] else 0
  }

  /** The queue of `key` once its expired head has been popped. */
  function Window(l: Limiter, key: string, duration: int, now: int): seq<int> {
    RemoveExpired(Queued(l, key), Unix(now), duration)
  }

  /** Moves `key` to the front of the LRU list with a new activity time, window and queue. */
  function Touched(l: Limiter, key: string, duration: int, now: int, queue: seq<int>): Limiter {
    l.(store := l.store[key := Entry(now, duration, queue)],
       lru := [key] + Without(l.lru, key))
  }

  function RequestStep(l: Limiter, key: string, max: int, duration: int, now: int): (Limiter, bool) {
    if max <= 0 then (l, false)
    else
      var window := Window(l, key, duration, now);
      if |window| >= max then (Touched(l, key, duration, now, window), false)
      else (Touched(l, key, duration, now, window + [Unix(now)]), true)
  }

  function ReserveStep(l: Limiter, key: string, max: int, duration: int, now: int): (Limiter, bool) {
    if max <= 0 then (l, false)
    else
      var window := Window(l, key, duration, now);
      var touched := Touched(l, key, duration, now, window);
      if |window| >= max || Held(l, key) >= max - |window| then (touched, false)
      else (touched.(reservations := l.reservations[key := Held(l, key) + 1]), true)
  }

  function Release(reservations: map<string, int>, key: string): map<string, int> {
    var left := (if key in reservations then reservations[key] else 0) - 1;
    if left == 0 then reservations - {key} else reservations[key := left]
  }

  function CompleteStep(l: Limiter, key: string, duration: int, success: bool, now: int): Limiter {
    var released := l.(reservations := Release(l.reservations, key));
    if success
    then Touched(released, key, duration, now, Window(l, key, duration, now) + [Unix(now)])
    else released
  }

  predicate Idle(l: Limiter, key: string, now: int)
    requires key in l.store
  {
    now - l.store[key].lastActive >= l.expiration
  }

  /** What a sweep leaves of the queue of `key`. */
  function Swept(l: Limiter, key: string, now: int): seq<int>
    requires key in l.store
  {
    if Idle(l, key, now) then RemoveExpired(l.store[key].requests, Unix(now), l.store[key].duration)
    else l.store[key].requests
  }

  predicate Evicted(l: Limiter, key: string, now: int)
    requires key in l.store
  {
    Idle(l, key, now) && Swept(l, key, now) == []
  }

  function Keep(list: seq<string>, store: map<string, Entry>): seq<string> {
    if list == [] then []
    else (if list[0] in store then [list[0]] else []) + Keep(list[1..], store)
  }

  /** The sweep, stated without its loop: exactly the idle keys whose window is empty go. */
  function SweepStep(l: Limiter, now: int): Limiter {
    if l.expiration <= 0 then l
    else
      var store := map k | k in l.store && !Evicted(l, k, now) :: l.store[k].(requests := Swept(l, k, now));
      l.(store := store, lru := Keep(l.lru, store))
  }

  function Step(w: World, op: Op): (World, bool) {
    match op
    case Request(key, max, duration, now) =>
      var (l, ok) := RequestStep(w.limiter, key, max, duration, now);
      (w.(limiter := l), ok)
    case Reserve(key, max, duration, now) =>
      var (l, ok) := ReserveStep(w.limiter, key, max, duration, now);
      (World(l, if ok then w.handles + [Handle(key, duration, true)] else w.handles), ok)
    case Complete(h, success, now) =>
      if h >= |w.handles| || !w.handles[h].open then (w, false)
      else
        var handle := w.handles[h];
        (World(CompleteStep(w.limiter, handle.key, handle.duration, success, now),
               w.handles[h := handle.(open := false)]), false)
    case Sweep(now) => (w.(limiter := SweepStep(w.limiter, now)), false)
  }

  function Run(expiration: int, ops: seq<Op>): (World, seq<bool>) {
    if ops == [] then (World(Limiter(map[], [], map[], expiration), []), [])
    else
      var (w, outs) := Run(expiration, ops[..|ops| - 1]);
      var (w', out) := Step(w, ops[|ops| - 1]);
      (w', outs + [out])
  }

  // ---------------------------------------------------------------------------------------
  // The full-history limiter
  // ---------------------------------------------------------------------------------------

  /** Every timestamp ever recorded, per key, and the handles given out. Nothing is dropped. */
  datatype Ledger = Ledger(history: map<string, seq<int>>, handles: seq<Handle>)

  function History(ledger: Ledger, key: string): seq<int> {
    if key in ledger.history then ledger.history[key] else []
  }

  /** The timestamps of `history` less than `duration` seconds old. */
  function Recent(history: seq<int>, now: int, duration: int): seq<int> {
    if history == [] then []
    else (if now - history[0] < duration then [history[0]] else []) + Recent(history[1..], now, duration)
  }

  function OpenHandles(handles: seq<Handle>, key: string): nat {
    if handles == [] then 0
    else (if handles[0].open && handles[0].key == key then 1 else 0) + OpenHandles(handles[1..], key)
  }

  function Recorded(ledger: Ledger, key: string, now: int): Ledger {
    ledger.(history := ledger.history[key := History(ledger, key) + [Unix(now)]])
  }

  function LedgerStep(ledger: Ledger, op: Op): (Ledger, bool) {
    match op
    case Request(key, max, duration, now) =>
      if |Recent(History(ledger, key), Unix(now), duration)| < max
      then (Recorded(ledger, key, now), true)
      else (ledger, false)
    case Reserve(key, max, duration, now) =>
      if |Recent(History(ledger, key), Unix(now), duration)| + OpenHandles(ledger.handles, key) < max
      then (ledger.(handles := ledger.handles + [Handle(key, duration, true)]), true)
      else (ledger, false)
    case Complete(h, success, now) =>
      if h >= |ledger.handles| || !ledger.handles[h].open then (ledger, false)
      else
        var handle := ledger.handles[h];
        var closed := ledger.(handles := ledger.handles[h := handle.(open := false)]);
        (if success then Recorded(closed, handle.key, now) else closed, false)
    case Sweep(_) => (ledger, false)
  }

  function LedgerRun(ops: seq<Op>): (Ledger, seq<bool>) {
    if ops == [] then (Ledger(map[], []), [])
    else
      var (ledger, outs) := LedgerRun(ops[..|ops| - 1]);
      var (ledger', out) := LedgerStep(ledger, ops[|ops| - 1]);
      (ledger', outs + [out])
  }

  // ---------------------------------------------------------------------------------------
  // The runs considered
  // ---------------------------------------------------------------------------------------

  /**
   The clock never runs backwards under the lock. A sweep carries the time of its tick, which
   may be older than requests already served, but never newer than those served after it.
   */
  ghost predicate ClockOrdered(ops: seq<Op>) {
    forall i, j :: 0 <= i < j < |ops| && !ops[j].Sweep? ==> ops[i].now <= ops[j].now
  }

  /** The operations that count what lies in a window. */
  predicate Counts(op: Op) {
    op.Request? || op.Reserve?
  }

  /** A window of length `b` reaches back no further than one of length `d`. A window of no length reaches nothing. */
  predicate Within(b: int, d: int) {
    b <= d || b <= 0
  }

  /** The windows of a key only ever shrink: no call names a longer one than an earlier call did. */
  ghost predicate NeverLonger(ops: seq<Op>) {
    forall i, j :: 0 <= i < j < |ops| && Counts(ops[i]) && Counts(ops[j]) && ops[i].key == ops[j].key ==>
      Within(ops[j].duration, ops[i].duration)
  }

  /** No window of a key is shorter than its bound. */
  ghost predicate AtLeast(ops: seq<Op>, bounds: string -> int) {
    forall op :: op in ops && Counts(op) ==> Within(bounds(op.key), op.duration)
  }

  /** A time no operation of the run comes after. */
  ghost predicate NotBefore(ops: seq<Op>, time: int) {
    forall op :: op in ops ==> op.now <= time
  }

  // ---------------------------------------------------------------------------------------
  // The coupling invariant
  // ---------------------------------------------------------------------------------------

  ghost predicate Distinct<T>(list: seq<T>) {
    forall i, j :: 0 <= i < j < |list| ==> list[i] != list[j]
  }

  /** Distinct keys of the store which, front to back, never get more recent. */
  ghost predicate Descending(list: seq<string>, store: map<string, Entry>) {
    && Distinct(list)
    && (forall k :: k in list ==> k in store)
    && (forall i, j :: 0 <= i < j < |list| ==> store[list[j]].lastActive <= store[list[i]].lastActive)
  }

  /** Each stored key is in the list exactly once, nothing else is, most recent first. */
  ghost predicate WellFormed(l: Limiter) {
    && Descending(l.lru, l.store)
    && (forall k :: k in l.store ==> k in l.lru)
  }

  ghost predicate ActiveBy(l: Limiter, time: int) {
    forall k :: k in l.store ==> l.store[k].lastActive <= time
  }

  ghost predicate Sorted(history: seq<int>) {
    forall i, j :: 0 <= i < j < |history| ==> history[i] <= history[j]
  }

  /** `queue` is `history` less a prefix that a window of this length no longer reaches. */
  ghost predicate Tracks(queue: seq<int>, history: seq<int>, bound: int, second: int) {
    && Sorted(history)
    && (forall i :: 0 <= i < |history| ==> history[i] <= second)
    && |queue| <= |history|
    && queue == history[|history| - |queue|..]
    && (forall i :: 0 <= i < |history| - |queue| ==> second - history[i] >= bound)
  }

  /** What the limiter knows of one key against what the ledger remembers of it. */
  ghost predicate KeyCoupled(w: World, ledger: Ledger, bounds: string -> int, time: int, key: string) {
    && (key in w.limiter.store ==> Within(bounds(key), w.limiter.store[key].duration))
    && Held(w.limiter, key) == OpenHandles(w.handles, key)
    && Tracks(Queued(w.limiter, key), History(ledger, key), bounds(key), Unix(time))
  }

  ghost predicate Coupled(w: World, ledger: Ledger, bounds: string -> int, time: int) {
    && WellFormed(w.limiter)
    && ActiveBy(w.limiter, time)
    && w.handles == ledger.handles
    && (forall h :: h in w.handles ==> Within(bounds(h.key), h.duration))
    && (forall key :: KeyCoupled(w, ledger, bounds, time, key))
  }
}
