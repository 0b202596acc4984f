/** Shutdown is orderly under every interleaving of requests, hijacks and the stop. */
module DrainingTheorems {
  import opened DrainingModel

  /** Closed or about to be closed, by either side. */
  ghost function Closings<R>(h: Handler<R>, r: R): nat {
    (if r in h.toClose then 1 else 0) + (if r in h.raced then 1 else 0) + multiset(h.byStop)[r] + multiset(h.byHijack)[r]
  }

  /** The connections the shutdown answers for: hijacked after the stop, or held by a request active at it. */
  ghost predicate MustClose<R>(h: Handler<R>, r: R) {
    h.stopped && r in h.hijacked && r !in h.spared
  }

  ghost predicate Sound<R>(h: Handler<R>) {
    && h.admitted == h.active + h.returned && h.active !! h.returned
    && h.hijacked <= h.admitted && h.spared <= h.hijacked
    && h.closes == (if h.stopped && h.active == {} then 1 else 0)
    && (!h.stopped ==> h.spared == {})
  }

  ghost predicate ClosedOnce<R(!new)>(h: Handler<R>) {
    forall r :: Closings(h, r) == (if MustClose(h, r) then 1 else 0)
  }

  lemma NextSound<R>(h: Handler<R>, s: Step<R>)
    requires Sound(h) && Enabled(h, s)
    ensures Sound(Next(h, s))
  {}

  lemma NextClosing<R>(h: Handler<R>, s: Step<R>, r: R)
    requires Sound(h) && Enabled(h, s)
    requires Closings(h, r) == (if MustClose(h, r) then 1 else 0)
    ensures Closings(Next(h, s), r) == (if MustClose(Next(h, s), r) then 1 else 0)
  {
    assert s.StopCloses? ==> multiset(h.byStop + [s.r]) == multiset(h.byStop) + multiset{s.r};
    assert s.HijackCloses? ==> multiset(h.byHijack + [s.r]) == multiset(h.byHijack) + multiset{s.r};
  }

  lemma NextClosedOnce<R(!new)>(h: Handler<R>, s: Step<R>)
    requires Sound(h) && ClosedOnce(h) && Enabled(h, s)
    ensures ClosedOnce(Next(h, s))
  {
    forall r ensures Closings(Next(h, s), r) == (if MustClose(Next(h, s), r) then 1 else 0) {
      NextClosing(h, s, r);
    }
  }

  // ---------------------------------------------------------------------------------------
  // The whole shutdown
  // ---------------------------------------------------------------------------------------

  predicate Past(phase: Phase) {
    phase == StoppingTasks || phase == WaitingRefunds || phase == StoppingBatches || phase == Flushing || phase == SavingDashboard
  }

  ghost predicate Inv<R(!new)>(s: Shutdown<R>) {
    && Sound(s.handler) && ClosedOnce(s.handler)
    && (s.phase != Running ==> s.handler.stopped)
    && (Past(s.phase) || s.flushed || s.saved ==> s.handler.closes > 0)
    && (s.phase == SavingDashboard && s.errors == {} ==> s.flushed)
    && (s.phase == Over && s.errors == {} ==> s.flushed && s.saved)
  }

  lemma DoesInv<R(!new)>(s: Shutdown<R>, a: Act<R>)
    requires Inv(s) && Can(s, a)
    ensures Inv(Does(s, a))
  {
    match a
    case Handle(step) =>
      NextSound(s.handler, step);
      NextClosedOnce(s.handler, step);
    case BeginShutdown =>
      NextSound(s.handler, Stop);
      NextClosedOnce(s.handler, Stop);
    case _ =>
  }

  lemma {:induction false} RunInv<R(!new)>(s: Shutdown<R>, acts: seq<Act<R>>)
    requires Inv(s) && Possible(s, acts)
    ensures Inv(Run(s, acts))
    decreases |acts|
  {
    if acts != [] {
      DoesInv(s, acts[0]);
      RunInv(Does(s, acts[0]), acts[1..]);
    }
  }

  lemma StartedInv<R(!new)>()
    ensures Inv(Started<R>())
  {
    forall r: R ensures Closings(Fresh(), r) == 0 {}
  }

  /**
   In every run `done` is closed at most once, exactly when the handler is stopped and no
   request is active; and then every request ever admitted has returned.
   */
  lemma DoneMeansDrained<R(!new)>(acts: seq<Act<R>>)
    requires Possible(Started<R>(), acts)
    ensures
      var h := Run(Started<R>(), acts).handler;
      && h.closes <= 1
      && (h.closes == 1 <==> h.stopped && h.active == {})
      && (h.closes == 1 ==> h.admitted == h.returned)
  {
    StartedInv<R>();
    RunInv(Started<R>(), acts);
  }

  /** Once stopped, always stopped, and nobody new gets in, whatever happens next. */
  lemma {:induction false} NoAdmissionAfterStop<R(!new)>(s: Shutdown<R>, acts: seq<Act<R>>)
    requires s.handler.stopped && Possible(s, acts)
    ensures Run(s, acts).handler.stopped && Run(s, acts).handler.admitted == s.handler.admitted
    ensures Run(s, acts).handler.active <= s.handler.active
    decreases |acts|
  {
    if acts != [] {
      NoAdmissionAfterStop(Does(s, acts[0]), acts[1..]);
    }
  }

  /**
   The final flush happens only when every admitted handler has returned, and a shutdown that
   reports no error has flushed, has saved the dashboard data and has drained every handler.
   */
  lemma FlushOnlyWhenDrained<R(!new)>(acts: seq<Act<R>>)
    requires Possible(Started<R>(), acts)
    ensures
      var s := Run(Started<R>(), acts);
      && (s.phase == Flushing || s.flushed ==> s.handler.admitted == s.handler.returned && s.handler.active == {})
      && (s.phase == Over && s.errors == {} ==> s.flushed && s.saved && s.handler.admitted == s.handler.returned)
  {
    StartedInv<R>();
    RunInv(Started<R>(), acts);
  }

  /**
   The hijack race: a connection hijacked after the stop, or held by a request active at it,
   is closed by exactly one of the two sides once neither has anything left to close. Every
   other connection is left alone.
   */
  lemma HijackedClosedByExactlyOne<R(!new)>(acts: seq<Act<R>>, r: R)
    requires Possible(Started<R>(), acts)
    ensures
      var h := Run(Started<R>(), acts).handler;
      && multiset(h.byStop)[r] + multiset(h.byHijack)[r] <= (if MustClose(h, r) then 1 else 0)
      && (r !in h.toClose && r !in h.raced ==>
            multiset(h.byStop)[r] + multiset(h.byHijack)[r] == (if MustClose(h, r) then 1 else 0))
  {
    StartedInv<R>();
    RunInv(Started<R>(), acts);
    var h := Run(Started<R>(), acts).handler;
    assert Closings(h, r) == (if MustClose(h, r) then 1 else 0);
  }

  // ---------------------------------------------------------------------------------------
  // The shutdown by its acts
  // ---------------------------------------------------------------------------------------

  /** The act reports a failure of its phase. A dashboard that is not exported cannot fail. */
  predicate Fails<R>(a: Act<R>) {
    match a
    case ServerShutdown(ok) => !ok
    case WaitFails => true
    case TasksStopped(ok) => !ok
    case RefundsWaited(outcome) => outcome != RefundsDone
    case BatchesStopped(ok) => !ok
    case Flushed(ok) => !ok
    case DashboardSaved(exporting, ok) => exporting && !ok
    case _ => false
  }

  /** The phase an act belongs to. */
  function PhaseOf<R>(a: Act<R>): Phase {
    match a
    case ServerShutdown(_) => ShuttingServer
    case HandlersDone => WaitingHandlers
    case WaitFails => WaitingHandlers
    case TasksStopped(_) => StoppingTasks
    case RefundsWaited(_) => WaitingRefunds
    case BatchesStopped(_) => StoppingBatches
    case Flushed(_) => Flushing
    case DashboardSaved(_, _) => SavingDashboard
    case _ => Running
  }

  /** The shutdown goes on after the act: a refund that failed does not stop it, nor does a failed flush. */
  predicate GoesOn<R>(a: Act<R>) {
    match a
    case BeginShutdown => true
    case HandlersDone => true
    case RefundsWaited(outcome) => outcome != RefundsNotDrained
    case Flushed(_) => true
    case _ => !Fails(a) && !a.DashboardSaved?
  }

  /** The acts of the shutdown itself. */
  function Main<R>(acts: seq<Act<R>>): seq<Act<R>>
    decreases |acts|
  {
    if acts == [] then []
    else
      var a := acts[|acts| - 1];
      Main(acts[..|acts| - 1]) + if a.Handle? then [] else [a]
  }

  const PHASES := [Running, ShuttingServer, WaitingHandlers, StoppingTasks, WaitingRefunds, StoppingBatches, Flushing, SavingDashboard]

  /** The acts so far are one for each phase, in order, and all but the last let the shutdown go on. */
  ghost predicate InPhase<R>(phase: Phase, main: seq<Act<R>>) {
    && |main| <= |PHASES|
    && (forall k :: 0 <= k < |main| ==> PhaseOf(main[k]) == PHASES[k] && !main[k].Handle?)
    && (forall k :: 0 <= k < |main| - 1 ==> GoesOn(main[k]))
    && phase == if main == [] then Running else if GoesOn(main[|main| - 1]) && |main| < |PHASES| then PHASES[|main|] else Over
  }

  /** The state as the acts tell it. */
  ghost predicate Told<R(!new)>(s: Shutdown<R>, acts: seq<Act<R>>) {
    && InPhase(s.phase, Main(acts))
    && (forall p :: p in s.errors <==> exists i :: 0 <= i < |acts| && Fails(acts[i]) && PhaseOf(acts[i]) == p)
    && (s.flushed <==> exists i :: 0 <= i < |acts| && acts[i] == Flushed(true))
    && (s.saved <==> exists i :: 0 <= i < |acts| && acts[i].DashboardSaved? && !Fails(acts[i]))
    && (s.flushed ==> s.phase == SavingDashboard || s.phase == Over) && (s.saved ==> s.phase == Over)
  }

  lemma MainStep<R>(acts: seq<Act<R>>, a: Act<R>)
    ensures Main(acts + [a]) == Main(acts) + if a.Handle? then [] else [a]
  {
    assert (acts + [a])[..|acts|] == acts;
  }

  lemma PhaseStep<R>(s: Shutdown<R>, main: seq<Act<R>>, a: Act<R>)
    requires InPhase(s.phase, main) && Can(s, a) && !a.Handle?
    ensures InPhase(Does(s, a).phase, main + [a])
  {
    var after := main + [a];
    assert forall k :: 0 <= k < |main| ==> after[k] == main[k];
    assert after[|main|] == a;
  }

  /** What holds of some act of a longer run. */
  lemma SomeAct<R>(acts: seq<Act<R>>, a: Act<R>, f: Act<R> -> bool)
    ensures (exists i :: 0 <= i < |acts + [a]| && f((acts + [a])[i])) <==> f(a) || exists i :: 0 <= i < |acts| && f(acts[i])
  {
    var after := acts + [a];
    assert forall i :: 0 <= i < |acts| ==> after[i] == acts[i];
    assert after[|acts|] == a;
  }

  lemma ToldStep<R(!new)>(s: Shutdown<R>, acts: seq<Act<R>>, a: Act<R>)
    requires Told(s, acts) && Can(s, a)
    ensures Told(Does(s, a), acts + [a])
  {
    MainStep(acts, a);
    if a.Handle? {
      assert Main(acts) + [] == Main(acts);
    } else {
      PhaseStep(s, Main(acts), a);
    }
    forall p ensures p in Does(s, a).errors <==> exists i :: 0 <= i < |acts + [a]| && Fails((acts + [a])[i]) && PhaseOf((acts + [a])[i]) == p {
      SomeAct(acts, a, (x: Act<R>) => Fails(x) && PhaseOf(x) == p);
    }
    SomeAct(acts, a, (x: Act<R>) => x == Flushed(true));
    SomeAct(acts, a, (x: Act<R>) => x.DashboardSaved? && !Fails(x));
  }

  lemma {:induction false} ToldAlong<R(!new)>(s: Shutdown<R>, past: seq<Act<R>>, acts: seq<Act<R>>, whole: seq<Act<R>>)
    requires Told(s, past) && Possible(s, acts) && whole == past + acts
    ensures Told(Run(s, acts), whole)
    decreases |acts|
  {
    if acts == [] {
      assert whole == past;
    } else {
      ToldStep(s, past, acts[0]);
      assert acts == [acts[0]] + acts[1..];
      ToldAlong(Does(s, acts[0]), past + [acts[0]], acts[1..], whole);
    }
  }

  lemma ToldAlways<R(!new)>(acts: seq<Act<R>>)
    requires Possible(Started<R>(), acts)
    ensures Told(Run(Started<R>(), acts), acts)
  {
    ToldAlong(Started<R>(), [], acts, acts);
  }

  /**
   A shutdown is reported clean exactly when no act of its run carried a failure, and the phases
   reported as failed are exactly those whose act did.
   */
  lemma CleanExactly<R(!new)>(acts: seq<Act<R>>)
    requires Possible(Started<R>(), acts)
    ensures var s := Run(Started<R>(), acts);
            && (s.errors == {} <==> forall i :: 0 <= i < |acts| ==> !Fails(acts[i]))
            && (forall p :: p in s.errors <==> exists i :: 0 <= i < |acts| && Fails(acts[i]) && PhaseOf(acts[i]) == p)
  {
    ToldAlways(acts);
    var s := Run(Started<R>(), acts);
    if i :| 0 <= i < |acts| && Fails(acts[i]) {
      assert PhaseOf(acts[i]) in s.errors;
    }
  }

  /** Everything before the flush has succeeded, in order; refunds may have failed, but are drained. */
  ghost predicate Cleared<R>(main: seq<Act<R>>) {
    && |main| >= 6
    && main[0] == BeginShutdown && main[1] == ServerShutdown(true) && main[2] == HandlersDone && main[3] == TasksStopped(true)
    && (main[4] == RefundsWaited(RefundsDone) || main[4] == RefundsWaited(RefundsFailed))
    && main[5] == BatchesStopped(true)
  }

  /**
   The flush is due or done exactly in the runs in which the server, the handlers, the tasks, the
   refunds and the batches have been dealt with, each with success and in this order.
   */
  lemma FlushExactly<R(!new)>(acts: seq<Act<R>>)
    requires Possible(Started<R>(), acts)
    ensures var s, main := Run(Started<R>(), acts), Main(acts);
            && (Cleared(main) <==> s.phase == Flushing || (|main| > 6 && main[6].Flushed?))
            && (s.flushed ==> Cleared(main))
            && (s.flushed <==> exists i :: 0 <= i < |acts| && acts[i] == Flushed(true))
            && (s.saved <==> exists i :: 0 <= i < |acts| && acts[i].DashboardSaved? && !Fails(acts[i]))
  {
    ToldAlways(acts);
    ClearedInPhase(Run(Started<R>(), acts).phase, Main(acts));
    if i :| 0 <= i < |acts| && acts[i] == Flushed(true) {
      MainHas(acts, i);
    }
  }

  lemma ClearedInPhase<R>(phase: Phase, main: seq<Act<R>>)
    requires InPhase(phase, main)
    ensures Cleared(main) <==> phase == Flushing || (|main| > 6 && main[6].Flushed?)
    ensures (exists k :: 0 <= k < |main| && main[k].Flushed?) ==> Cleared(main)
  {
    if |main| >= 6 {
      assert PhaseOf(main[0]) == Running && PhaseOf(main[1]) == ShuttingServer && PhaseOf(main[2]) == WaitingHandlers;
      assert PhaseOf(main[3]) == StoppingTasks && PhaseOf(main[4]) == WaitingRefunds && PhaseOf(main[5]) == StoppingBatches;
    }
    if |main| > 6 {
      assert PhaseOf(main[6]) == Flushing;
    }
  }

  lemma {:induction false} MainHas<R>(acts: seq<Act<R>>, i: nat)
    requires i < |acts| && !acts[i].Handle?
    ensures acts[i] in Main(acts)
    decreases |acts|
  {
    if i < |acts| - 1 {
      MainHas(acts[..|acts| - 1], i);
    }
  }
}
