/**
 Draining HTTP handlers and their hijacked connections at shutdown. Each critical section is
 one step; so is each closing of a connection, which happens outside the lock.

 `R` is the type of requests. A request hijacks at most one connection, which goes by the
 request's name.
 */
module DrainingModel {

  /**
   `closes` counts how often `done` has been closed. `toClose` are the requests whose
   connections a running `stop` still has to close, `raced` those whose `Hijack` found the handler
   stopped and still has to close. `spared` had hijacked and returned before the stop.
   */
  datatype Handler<R> = Handler(
    active: set<R>,
    stopped: bool,
    closes: nat,
    hijacked: set<R>,
    toClose: set<R>,
    raced: set<R>,
    byStop: seq<R>,
    byHijack: seq<R>,
    admitted: set<R>,
    returned: set<R>,
    spared: set<R>)

  function Fresh<R>(): Handler<R> {
    Handler({}, false, 0, {}, {}, {}, [], [], {}, {}, {})
  }

  datatype Step<R> =
    | Serve(r: R)
    | Finish(r: R)
    | Stop
    | StopCloses(r: R)
    | Hijack(r: R)
    | HijackCloses(r: R)

  predicate Enabled<R(==)>(h: Handler<R>, s: Step<R>) {
    match s
    case Serve(r) => r !in h.admitted
    case Finish(r) => r in h.active
    case Stop => true
    case StopCloses(r) => r in h.toClose
    case Hijack(r) => r in h.active && r !in h.hijacked
    case HijackCloses(r) => r in h.raced
  }

  /** Admission: refused once stopped. */
  function Served<R>(h: Handler<R>, r: R): Handler<R> {
    if h.stopped then h else h.(active := h.active + {r}, admitted := h.admitted + {r})
  }

  /** The deferred section of a handler that returns. */
  function Finished<R>(h: Handler<R>, r: R): Handler<R> {
    var active := h.active - {r};
    h.(active := active,
       returned := h.returned + {r},
       closes := if h.stopped && active == {} then h.closes + 1 else h.closes)
  }

  /** The critical section of `stop`; a second call does nothing. */
  function Stopped<R>(h: Handler<R>): Handler<R> {
    if h.stopped then h
    else h.(stopped := true,
            closes := if h.active == {} then h.closes + 1 else h.closes,
            toClose := h.active * h.hijacked,
            spared := h.hijacked - h.active)
  }

  /** The critical section of `Hijack`. */
  function Hijacked<R>(h: Handler<R>, r: R): Handler<R> {
    h.(hijacked := h.hijacked + {r}, raced := if h.stopped then h.raced + {r} else h.raced)
  }

  function Next<R>(h: Handler<R>, s: Step<R>): Handler<R> {
    match s
    case Serve(r) => Served(h, r)
    case Finish(r) => Finished(h, r)
    case Stop => Stopped(h)
    case StopCloses(r) => h.(toClose := h.toClose - {r}, byStop := h.byStop + [r])
    case Hijack(r) => Hijacked(h, r)
    case HijackCloses(r) => h.(raced := h.raced - {r}, byHijack := h.byHijack + [r])
  }

  // ---------------------------------------------------------------------------------------
  // The shutdown sequence
  // ---------------------------------------------------------------------------------------

  datatype Phase =
    | Running | ShuttingServer | WaitingHandlers | StoppingTasks | WaitingRefunds | StoppingBatches
    | Flushing | SavingDashboard | Over

  /** How the wait for asynchronous refunds ended: a refund that failed does not stop the shutdown. */
  datatype RefundOutcome = RefundsDone | RefundsFailed | RefundsNotDrained

  /** Which phase's error `shutdownAccounting` reports, if any. */
  datatype Shutdown<R> = Shutdown(handler: Handler<R>, phase: Phase, errors: set<Phase>, flushed: bool, saved: bool)

  datatype Act<R> =
    | Handle(step: Step<R>)      // any step of any handler, at any time
    | BeginShutdown
    | ServerShutdown(ok: bool)
    | HandlersDone               // `wait` returns nil
    | WaitFails                  // `wait` returns the context's error
    | TasksStopped(ok: bool)
    | RefundsWaited(outcome: RefundOutcome)
    | BatchesStopped(ok: bool)
    | Flushed(ok: bool)
    | DashboardSaved(exporting: bool, ok: bool)

  predicate Can<R(==)>(s: Shutdown<R>, a: Act<R>) {
    match a
    case Handle(step) => Enabled(s.handler, step)
    case BeginShutdown => s.phase == Running
    case ServerShutdown(_) => s.phase == ShuttingServer
    case HandlersDone => s.phase == WaitingHandlers && s.handler.closes > 0
    case WaitFails => s.phase == WaitingHandlers
    case TasksStopped(_) => s.phase == StoppingTasks
    case RefundsWaited(_) => s.phase == WaitingRefunds
    case BatchesStopped(_) => s.phase == StoppingBatches
    case Flushed(_) => s.phase == Flushing
    case DashboardSaved(_, _) => s.phase == SavingDashboard
  }

  /** Goes on to `next`, or gives up with the error of the present phase. */
  function OnOrOut<R>(s: Shutdown<R>, ok: bool, next: Phase): Shutdown<R> {
    if ok then s.(phase := next) else s.(phase := Over, errors := s.errors + {s.phase})
  }

  function Does<R>(s: Shutdown<R>, a: Act<R>): Shutdown<R> {
    match a
    case Handle(step) => s.(handler := Next(s.handler, step))
    case BeginShutdown => s.(handler := Stopped(s.handler), phase := ShuttingServer)
    case ServerShutdown(ok) => OnOrOut(s, ok, WaitingHandlers)
    case HandlersDone => s.(phase := StoppingTasks)
    case WaitFails => OnOrOut(s, false, Over)
    case TasksStopped(ok) => OnOrOut(s, ok, WaitingRefunds)
    case RefundsWaited(outcome) =>
      if outcome == RefundsNotDrained then OnOrOut(s, false, Over)
      else s.(phase := StoppingBatches, errors := if outcome == RefundsFailed then s.errors + {WaitingRefunds} else s.errors)
    case BatchesStopped(ok) => OnOrOut(s, ok, Flushing)
    case Flushed(ok) => s.(phase := SavingDashboard, flushed := ok, errors := if ok then s.errors else s.errors + {Flushing})
    case DashboardSaved(exporting, ok) =>
      s.(phase := Over, saved := !exporting || ok, errors := if exporting && !ok then s.errors + {SavingDashboard} else s.errors)
  }

  predicate Possible<R(==)>(s: Shutdown<R>, acts: seq<Act<R>>)
    decreases |acts|
  {
    acts == [] || (Can(s, acts[0]) && Possible(Does(s, acts[0]), acts[1..]))
  }

  function Run<R>(s: Shutdown<R>, acts: seq<Act<R>>): Shutdown<R>
    decreases |acts|
  {
    if acts == [] then s else Run(Does(s, acts[0]), acts[1..])
  }

  function Started<R>(): Shutdown<R> {
    Shutdown(Fresh(), Running, {}, false, false)
  }
}
