/** One-time verification codes kept in memory: registered, verified once, purged when expired. */
module VerificationModel {
  import opened Decimals

  datatype Value = Value(code: string, time: int)

  type Store = map<string, Value>

  const MAX_SIZE := 10
  const NANOS := 1_000_000_000

  /** Whole seconds of a duration in nanoseconds, the fraction cut off towards zero. */
  function Seconds(d: int): int {
    if d >= 0 then d / NANOS else -((-d) / NANOS)
  }

  predicate Expired(v: Value, now: int, minutes: int) {
    Seconds(now - v.time) >= minutes * 60
  }

  /** The purpose's length comes first, so that purpose and key can be told apart. */
  function Identity(key: string, purpose: string): string {
    Decimal(|purpose|) + ":" + purpose + key
  }

  function Purged(store: Store, now: int, minutes: int): Store {
    map k | k in store && !Expired(store[k], now, minutes) :: store[k]
  }

  /** Registering replaces what was there, and cleans up once the table is large. */
  function RegisterStep(store: Store, at: string, code: string, now: int, minutes: int): Store {
    if code == "" || minutes <= 0 then store
    else
      var registered := store[at := Value(code, now)];
      if |registered| > MAX_SIZE then Purged(registered, now, minutes) else registered
  }

  predicate Accepts(store: Store, at: string, code: string, now: int, minutes: int) {
    code != "" && at in store && !Expired(store[at], now, minutes) && code == store[at].code
  }

  /** A code that is accepted is gone; so is one that has expired, whatever was presented. */
  function VerifyStep(store: Store, at: string, code: string, now: int, minutes: int): Store {
    if code != "" && at in store && (Expired(store[at], now, minutes) || code == store[at].code) then store - {at} else store
  }

  // ---------------------------------------------------------------------------------------
  // Runs
  // ---------------------------------------------------------------------------------------

  datatype Event =
    | Register(key: string, code: string, purpose: string, now: int)
    | Verify(key: string, code: string, purpose: string, now: int)

  type Hash = string -> string

  function Place(e: Event, hash: Hash): string {
    hash(Identity(e.key, e.purpose))
  }

  function Step(store: Store, e: Event, minutes: int, hash: Hash): Store {
    match e
    case Register(_, code, _, now) => RegisterStep(store, Place(e, hash), code, now, minutes)
    case Verify(_, code, _, now) => VerifyStep(store, Place(e, hash), code, now, minutes)
  }

  function Run(events: seq<Event>, minutes: int, hash: Hash): Store
    decreases |events|
  {
    if events == [] then map[] else Step(Run(events[..|events| - 1], minutes, hash), events[|events| - 1], minutes, hash)
  }

  /** Whether the i-th event of a run is a verification that succeeds. */
  predicate Succeeds(events: seq<Event>, i: nat, minutes: int, hash: Hash)
    requires i < |events|
  {
    && events[i].Verify?
    && Accepts(Run(events[..i], minutes, hash), Place(events[i], hash), events[i].code, events[i].now, minutes)
  }
}
