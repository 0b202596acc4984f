/** The pool under every interleaving and every moment of cancellation. */
module WorkerPoolTheorems {
  import opened WorkerPoolModel

  // ---------------------------------------------------------------------------------------
  // Counting
  // ---------------------------------------------------------------------------------------

  function CountIf(s: seq<Worker>, f: Worker -> bool): nat {
    if s == [] then 0 else (if f(s[0]) then 1 else 0) + CountIf(s[1..], f)
  }

  lemma {:induction false} CountUpdate(s: seq<Worker>, i: nat, x: Worker, f: Worker -> bool)
    requires i < |s|
    ensures CountIf(s[i := x], f) == CountIf(s, f) - (if f(s[i]) then 1 else 0) + (if f(x) then 1 else 0)
  {
    if i == 0 {
      assert s[i := x][1..] == s[1..];
    } else {
      assert s[i := x][1..] == s[1..][i - 1 := x];
      CountUpdate(s[1..], i - 1, x, f);
    }
  }

  lemma {:induction false} CountNone(s: seq<Worker>, f: Worker -> bool)
    requires forall i :: 0 <= i < |s| ==> !f(s[i])
    ensures CountIf(s, f) == 0
  {
    if s != [] {
      CountNone(s[1..], f);
    }
  }

  lemma {:induction false} CountWeaker(s: seq<Worker>, f: Worker -> bool, g: Worker -> bool)
    requires forall x :: f(x) ==> g(x)
    ensures CountIf(s, f) <= CountIf(s, g)
  {
    if s != [] {
      CountWeaker(s[1..], f, g);
    }
  }

  /** How many times `job` is listed. */
  function Times(s: seq<nat>, job: nat): nat {
    if s == [] then 0 else (if s[0] == job then 1 else 0) + Times(s[1..], job)
  }

  lemma {:induction false} TimesAppend(s: seq<nat>, x: nat, job: nat)
    ensures Times(s + [x], job) == Times(s, job) + (if x == job then 1 else 0)
  {
    if s == [] {
      assert s + [x] == [x];
    } else {
      assert (s + [x])[1..] == s[1..] + [x];
      TimesAppend(s[1..], x, job);
    }
  }

  lemma {:induction false} TimesWithout(s: seq<nat>, i: nat, job: nat)
    requires i < |s|
    ensures Times(s, job) == Times(s[..i] + s[i + 1..], job) + (if s[i] == job then 1 else 0)
  {
    if i == 0 {
      assert s[..0] + s[1..] == s[1..];
    } else {
      TimesWithout(s[1..], i - 1, job);
      assert (s[..i] + s[i + 1..])[1..] == s[1..][..i - 1] + s[1..][i..];
    }
  }

  lemma {:induction false} TimesSome(s: seq<nat>, i: nat)
    requires i < |s|
    ensures Times(s, s[i]) > 0
  {
    if i > 0 {
      TimesSome(s[1..], i - 1);
    }
  }

  /** The worker has taken the job and has not delivered its result. */
  function Holds(job: nat): Worker -> bool {
    (w: Worker) => (w.Got? || w.Running? || w.Sending?) && w.job == job
  }

  /** The worker is past the point where it would have run the job. */
  function Started(job: nat): Worker -> bool {
    (w: Worker) => (w.Running? || w.Sending?) && w.job == job
  }

  // ---------------------------------------------------------------------------------------
  // The invariant
  // ---------------------------------------------------------------------------------------

  function ResultAt(jobs: seq<Job>, job: nat): Summary {
    if job < |jobs| then ResultOf(jobs[job]) else ZERO
  }

  function Total(delivered: seq<nat>, jobs: seq<Job>): Summary {
    if delivered == [] then ZERO
    else Add(Total(delivered[..|delivered| - 1], jobs), ResultAt(jobs, delivered[|delivered| - 1]))
  }

  /**
   A job handed out is held by one worker or has been delivered, but not both and not twice;
   only a cancellation can lose it. A runnable job has been run exactly when its result is
   on its way or has arrived.
   */
  ghost predicate JobOk(p: Pool, jobs: seq<Job>, job: nat) {
    Accounted(p.workers, p.next, p.cancelled, p.runs, p.delivered, jobs, job)
  }

  ghost predicate Accounted(workers: seq<Worker>, next: nat, cancelled: bool, runs: seq<nat>, delivered: seq<nat>,
                            jobs: seq<Job>, job: nat) {
    var handed := if job < next then 1 else 0;
    && Times(delivered, job) + CountIf(workers, Holds(job)) <= handed
    && (!cancelled ==> Times(delivered, job) + CountIf(workers, Holds(job)) == handed)
    && Times(runs, job)
       == (if job < |jobs| && jobs[job].runnable then Times(delivered, job) + CountIf(workers, Started(job)) else 0)
  }

  ghost predicate JobsOk(p: Pool, jobs: seq<Job>) {
    forall job: nat :: JobOk(p, jobs, job)
  }

  /** Each channel has been closed just when the one who closes it is gone. */
  ghost predicate ClosesOk(p: Pool) {
    && p.jobsCloses == (if p.feeder.FeederGone? then 1 else 0)
    && p.resultsCloses == (if p.closer.CloserGone? then 1 else 0)
  }

  ghost predicate WorkersOk(p: Pool, jobs: seq<Job>) {
    forall i :: 0 <= i < |p.workers| ==>
      && (p.workers[i].Exited? ==> p.cancelled || p.feeder.FeederGone?)
      && (p.closer.CloserGone? ==> p.workers[i].Exited?)
      && (Busy(p.workers[i]) ==> p.workers[i].job < |jobs|)
  }

  ghost predicate ChannelsOk(p: Pool, jobs: seq<Job>) {
    && p.next <= |jobs|
    && (!p.feeder.Offering? && !p.cancelled ==> p.next == |jobs|)
    && ClosesOk(p) && WorkersOk(p, jobs)
    && (p.collector.Returned? ==> p.closer.CloserGone?)
  }

  predicate Busy(w: Worker) {
    w.Got? || w.Running? || w.Sending?
  }

  function UpTo(n: nat): seq<nat> {
    seq(n, i => i)
  }

  ghost predicate SummaryOk(p: Pool, jobs: seq<Job>) {
    && p.summary == Total(p.delivered, jobs)
    && p.processed == |p.delivered|
    && (!p.cancelled ==> p.reports == UpTo(if p.collector.Reporting? then p.processed else p.processed + 1))
    && (p.collector.Reporting? ==> p.processed > 0)
  }

  ghost predicate Inv(p: Pool, jobs: seq<Job>) {
    JobsOk(p, jobs) && ChannelsOk(p, jobs) && SummaryOk(p, jobs)
  }

  lemma InitialInv(jobs: seq<Job>, concurrency: int)
    ensures Inv(Initial(jobs, concurrency), jobs)
  {
    var p := Initial(jobs, concurrency);
    forall job: nat ensures JobOk(p, jobs, job) {
      CountNone(p.workers, Holds(job));
      CountNone(p.workers, Started(job));
    }
  }

  /** One worker changes state; the counts follow. */
  lemma CountsFollow(workers: seq<Worker>, w: nat, x: Worker, job: nat)
    requires w < |workers|
    ensures CountIf(workers[w := x], Holds(job))
            == CountIf(workers, Holds(job)) - (if Holds(job)(workers[w]) then 1 else 0) + (if Holds(job)(x) then 1 else 0)
    ensures CountIf(workers[w := x], Started(job))
            == CountIf(workers, Started(job)) - (if Started(job)(workers[w]) then 1 else 0) + (if Started(job)(x) then 1 else 0)
  {
    CountUpdate(workers, w, x, Holds(job));
    CountUpdate(workers, w, x, Started(job));
  }

  /** A worker that holds nothing takes the next job. */
  lemma HandJob(workers: seq<Worker>, next: nat, cancelled: bool, runs: seq<nat>, delivered: seq<nat>, jobs: seq<Job>, job: nat, w: nat)
    requires Accounted(workers, next, cancelled, runs, delivered, jobs, job) && w < |workers| && workers[w].Idle?
    ensures Accounted(workers[w := Got(next)], next + 1, cancelled, runs, delivered, jobs, job)
  {
    CountsFollow(workers, w, Got(next), job);
  }

  /** A worker moves on without a job, or drops one because of a cancellation. */
  lemma MoveJob(workers: seq<Worker>, next: nat, cancelled: bool, runs: seq<nat>, delivered: seq<nat>, jobs: seq<Job>, job: nat,
                w: nat, x: Worker)
    requires Accounted(workers, next, cancelled, runs, delivered, jobs, job) && w < |workers|
    requires (x.Idle? || x.Exited?) && (workers[w].Idle? || workers[w].Pausing? || (workers[w].Got? && cancelled))
    ensures Accounted(workers[w := x], next, cancelled, runs, delivered, jobs, job)
  {
    CountsFollow(workers, w, x, job);
  }

  lemma EndRunJob(workers: seq<Worker>, next: nat, cancelled: bool, runs: seq<nat>, delivered: seq<nat>, jobs: seq<Job>, job: nat, w: nat)
    requires Accounted(workers, next, cancelled, runs, delivered, jobs, job) && w < |workers| && workers[w].Running?
    ensures Accounted(workers[w := Sending(workers[w].job)], next, cancelled, runs, delivered, jobs, job)
  {
    CountsFollow(workers, w, Sending(workers[w].job), job);
  }

  /** The job of a worker is run, or skipped. */
  lemma RunJob(workers: seq<Worker>, next: nat, cancelled: bool, runs: seq<nat>, delivered: seq<nat>, jobs: seq<Job>, job: nat, w: nat)
    requires Accounted(workers, next, cancelled, runs, delivered, jobs, job)
    requires w < |workers| && workers[w].Got? && workers[w].job < |jobs| && jobs[workers[w].job].runnable
    ensures Accounted(workers[w := Running(workers[w].job)], next, cancelled, runs + [workers[w].job], delivered, jobs, job)
  {
    CountsFollow(workers, w, Running(workers[w].job), job);
    TimesAppend(runs, workers[w].job, job);
  }

  lemma SkipJob(workers: seq<Worker>, next: nat, cancelled: bool, runs: seq<nat>, delivered: seq<nat>, jobs: seq<Job>, job: nat, w: nat)
    requires Accounted(workers, next, cancelled, runs, delivered, jobs, job)
    requires w < |workers| && workers[w].Got? && workers[w].job < |jobs| && !jobs[workers[w].job].runnable
    ensures Accounted(workers[w := Sending(workers[w].job)], next, cancelled, runs, delivered, jobs, job)
  {
    CountsFollow(workers, w, Sending(workers[w].job), job);
  }

  lemma DeliverJob(workers: seq<Worker>, next: nat, cancelled: bool, runs: seq<nat>, delivered: seq<nat>, jobs: seq<Job>, job: nat,
                   w: nat, x: Worker)
    requires Accounted(workers, next, cancelled, runs, delivered, jobs, job)
    requires w < |workers| && workers[w].Sending? && (x.Idle? || x.Pausing?)
    ensures Accounted(workers[w := x], next, cancelled, runs, delivered + [workers[w].job], jobs, job)
  {
    CountsFollow(workers, w, x, job);
    TimesAppend(delivered, workers[w].job, job);
  }

  lemma NextJob(p: Pool, jobs: seq<Job>, pauses: bool, a: Action, job: nat)
    requires JobOk(p, jobs, job) && Enabled(p, jobs, a)
    ensures JobOk(Next(p, jobs, pauses, a), jobs, job)
  {
    match a
    case Hand(w) => HandJob(p.workers, p.next, p.cancelled, p.runs, p.delivered, jobs, job, w);
    case QuitCancelled(w) => MoveJob(p.workers, p.next, p.cancelled, p.runs, p.delivered, jobs, job, w, Exited);
    case QuitClosed(w) => MoveJob(p.workers, p.next, p.cancelled, p.runs, p.delivered, jobs, job, w, Exited);
    case Resume(w) => MoveJob(p.workers, p.next, p.cancelled, p.runs, p.delivered, jobs, job, w, Idle);
    case Begin(w) =>
      if jobs[p.workers[w].job].runnable {
        RunJob(p.workers, p.next, p.cancelled, p.runs, p.delivered, jobs, job, w);
      } else {
        SkipJob(p.workers, p.next, p.cancelled, p.runs, p.delivered, jobs, job, w);
      }
    case EndRun(w) => EndRunJob(p.workers, p.next, p.cancelled, p.runs, p.delivered, jobs, job, w);
    case Deliver(w) =>
      DeliverJob(p.workers, p.next, p.cancelled, p.runs, p.delivered, jobs, job, w, if pauses then Pausing else Idle);
    case _ =>
  }

  lemma NextChannels(p: Pool, jobs: seq<Job>, pauses: bool, a: Action)
    requires ChannelsOk(p, jobs) && Enabled(p, jobs, a)
    ensures ChannelsOk(Next(p, jobs, pauses, a), jobs)
  {}

  lemma TotalAppend(delivered: seq<nat>, job: nat, jobs: seq<Job>)
    ensures Total(delivered + [job], jobs) == Add(Total(delivered, jobs), ResultAt(jobs, job))
  {
    assert (delivered + [job])[..|delivered|] == delivered;
  }

  lemma ReportSummary(p: Pool, jobs: seq<Job>, pauses: bool)
    requires SummaryOk(p, jobs) && p.collector.Reporting?
    ensures SummaryOk(Next(p, jobs, pauses, Report), jobs)
  {
    assert UpTo(p.processed) + [p.processed] == UpTo(p.processed + 1);
  }

  lemma DeliverSummary(p: Pool, jobs: seq<Job>, pauses: bool, w: nat)
    requires SummaryOk(p, jobs) && Enabled(p, jobs, Deliver(w))
    ensures SummaryOk(Next(p, jobs, pauses, Deliver(w)), jobs)
  {
    TotalAppend(p.delivered, p.workers[w].job, jobs);
  }

  lemma NextSummary(p: Pool, jobs: seq<Job>, pauses: bool, a: Action)
    requires SummaryOk(p, jobs) && Enabled(p, jobs, a)
    ensures SummaryOk(Next(p, jobs, pauses, a), jobs)
  {
    if a.Deliver? {
      DeliverSummary(p, jobs, pauses, a.w);
    } else if a.Report? {
      ReportSummary(p, jobs, pauses);
    }
  }

  lemma NextInv(p: Pool, jobs: seq<Job>, pauses: bool, a: Action)
    requires Inv(p, jobs) && Enabled(p, jobs, a)
    ensures Inv(Next(p, jobs, pauses, a), jobs)
  {
    forall job: nat ensures JobOk(Next(p, jobs, pauses, a), jobs, job) {
      NextJob(p, jobs, pauses, a, job);
    }
    NextChannels(p, jobs, pauses, a);
    NextSummary(p, jobs, pauses, a);
  }

  lemma {:induction false} RunInv(p: Pool, jobs: seq<Job>, pauses: bool, actions: seq<Action>)
    requires Inv(p, jobs) && Possible(p, jobs, pauses, actions)
    ensures Inv(Run(p, jobs, pauses, actions), jobs)
    decreases |actions|
  {
    if actions != [] {
      NextInv(p, jobs, pauses, actions[0]);
      RunInv(Next(p, jobs, pauses, actions[0]), jobs, pauses, actions[1..]);
    }
  }

  // ---------------------------------------------------------------------------------------
  // Safety
  // ---------------------------------------------------------------------------------------

  /**
   In every reachable state: each channel has been closed at most once; the feeder about to send a
   job finds its channel open; a worker about to send a result finds its channel open and the
   collector still there. In a final state both channels have been closed.
   */
  lemma NoSendOnClosedChannel(jobs: seq<Job>, concurrency: int, pauses: bool, actions: seq<Action>)
    requires Possible(Initial(jobs, concurrency), jobs, pauses, actions)
    ensures
      var p := Run(Initial(jobs, concurrency), jobs, pauses, actions);
      && p.jobsCloses <= 1 && p.resultsCloses <= 1
      && (p.feeder.Offering? ==> p.jobsCloses == 0)
      && (forall i :: 0 <= i < |p.workers| && p.workers[i].Sending? ==> p.resultsCloses == 0 && !p.collector.Returned?)
      && (Final(p) ==> p.jobsCloses == 1 && p.resultsCloses == 1)
  {
    InitialInv(jobs, concurrency);
    RunInv(Initial(jobs, concurrency), jobs, pauses, actions);
  }

  /** However the run goes and wherever it is cancelled, a channel is run at most once. */
  lemma RunAtMostOnce(jobs: seq<Job>, concurrency: int, pauses: bool, actions: seq<Action>, job: nat)
    requires Possible(Initial(jobs, concurrency), jobs, pauses, actions)
    ensures
      var runs := Run(Initial(jobs, concurrency), jobs, pauses, actions).runs;
      Times(runs, job) <= (if job < |jobs| && jobs[job].runnable then 1 else 0)
  {
    InitialInv(jobs, concurrency);
    RunInv(Initial(jobs, concurrency), jobs, pauses, actions);
    var p := Run(Initial(jobs, concurrency), jobs, pauses, actions);
    assert JobOk(p, jobs, job);
    CountWeaker(p.workers, Started(job), Holds(job));
  }

  lemma {:induction false} CountAtMost(s: seq<Worker>, f: Worker -> bool)
    ensures CountIf(s, f) <= |s|
  {
    if s != [] {
      CountAtMost(s[1..], f);
    }
  }

  /** There are as many workers as asked for, between 1 and 32, or as there are channels if those are fewer; no more are run at a time. */
  lemma ConcurrencyIsBounded(jobs: seq<Job>, concurrency: int, pauses: bool, actions: seq<Action>)
    requires Possible(Initial(jobs, concurrency), jobs, pauses, actions)
    ensures var running := CountIf(Run(Initial(jobs, concurrency), jobs, pauses, actions).workers, (w: Worker) => w.Running?);
            var asked := if concurrency < 1 then 1 else if concurrency > 32 then 32 else concurrency;
            && |Run(Initial(jobs, concurrency), jobs, pauses, actions).workers| == (if asked < |jobs| then asked else |jobs|)
            && running <= |jobs| && running <= asked
  {
    SameWorkers(Initial(jobs, concurrency), jobs, pauses, actions);
    CountAtMost(Run(Initial(jobs, concurrency), jobs, pauses, actions).workers, (w: Worker) => w.Running?);
  }

  // ---------------------------------------------------------------------------------------
  // Completeness of an uncancelled run
  // ---------------------------------------------------------------------------------------

  /** The results of all jobs, in the order of the channel list. */
  function TotalInOrder(jobs: seq<Job>): Summary {
    if jobs == [] then Summary(0, 0, 0, 0, 0)
    else
      var job := jobs[|jobs| - 1];
      Add(TotalInOrder(jobs[..|jobs| - 1]), if job.runnable then job.outcome else Summary(0, 0, 0, 0, 0))
  }

  lemma {:induction false} TotalWithout(delivered: seq<nat>, i: nat, jobs: seq<Job>)
    requires i < |delivered|
    ensures Total(delivered, jobs)
            == Add(Total(delivered[..i] + delivered[i + 1..], jobs), ResultAt(jobs, delivered[i]))
    decreases |delivered|
  {
    var n := |delivered| - 1;
    var rest := delivered[..i] + delivered[i + 1..];
    if i == n {
      assert rest == delivered[..n];
    } else {
      var before := delivered[..n];
      TotalWithout(before, i, jobs);
      var rest' := before[..i] + before[i + 1..];
      assert rest == rest' + [delivered[n]] && rest[..|rest| - 1] == rest';
      AddSwaps(Total(rest', jobs), ResultAt(jobs, delivered[i]), ResultAt(jobs, delivered[n]));
    }
  }

  lemma AddSwaps(a: Summary, b: Summary, c: Summary)
    ensures Add(Add(a, b), c) == Add(Add(a, c), b)
  {}

  lemma {:induction false} TotalPrefix(delivered: seq<nat>, jobs: seq<Job>)
    requires jobs != [] && forall i :: 0 <= i < |delivered| ==> delivered[i] < |jobs| - 1
    ensures Total(delivered, jobs) == Total(delivered, jobs[..|jobs| - 1])
    decreases |delivered|
  {
    if delivered != [] {
      TotalPrefix(delivered[..|delivered| - 1], jobs);
    }
  }

  lemma {:induction false} FindJob(s: seq<nat>, job: nat) returns (i: nat)
    requires Times(s, job) > 0
    ensures i < |s| && s[i] == job
  {
    if s[0] == job {
      i := 0;
    } else {
      var k := FindJob(s[1..], job);
      i := k + 1;
    }
  }

  /** Results that arrive once each add up to the same summary in whatever order they arrive. */
  lemma {:induction false} OrderDoesNotMatter(delivered: seq<nat>, jobs: seq<Job>)
    requires forall job: nat :: Times(delivered, job) == (if job < |jobs| then 1 else 0)
    ensures Total(delivered, jobs) == TotalInOrder(jobs) && |delivered| == |jobs|
    decreases |jobs|
  {
    if jobs == [] {
      if delivered != [] {
        TimesSome(delivered, 0);
      }
    } else {
      var last := |jobs| - 1;
      assert Times(delivered, last) == 1;
      var i := FindJob(delivered, last);
      var rest := delivered[..i] + delivered[i + 1..];
      forall job: nat ensures Times(rest, job) == (if job < last then 1 else 0) {
        TimesWithout(delivered, i, job);
        assert Times(delivered, job) == (if job < |jobs| then 1 else 0);
      }
      TotalWithout(delivered, i, jobs);
      forall k | 0 <= k < |rest| ensures rest[k] < last {
        TimesSome(rest, k);
      }
      TotalPrefix(rest, jobs);
      assert |jobs[..last]| == last;
      OrderDoesNotMatter(rest, jobs[..last]);
    }
  }

  /**
   A run that ends without having been cancelled ran every runnable channel exactly once, sums
   all results whatever order they came in, and reported 0, 1, ... up to the total.
   */
  lemma UncancelledRunIsComplete(jobs: seq<Job>, concurrency: int, pauses: bool, actions: seq<Action>)
    requires jobs != [] && Possible(Initial(jobs, concurrency), jobs, pauses, actions)
    requires var p := Run(Initial(jobs, concurrency), jobs, pauses, actions); p.collector.Returned? && !p.cancelled
    ensures
      var p := Run(Initial(jobs, concurrency), jobs, pauses, actions);
      && (forall job: nat :: Times(p.runs, job) == (if job < |jobs| && jobs[job].runnable then 1 else 0))
      && p.summary == TotalInOrder(jobs)
      && p.reports == UpTo(|jobs| + 1)
  {
    var p0 := Initial(jobs, concurrency);
    var p := Run(p0, jobs, pauses, actions);
    InitialInv(jobs, concurrency);
    RunInv(p0, jobs, pauses, actions);
    SameWorkers(p0, jobs, pauses, actions);
    assert p.workers[0].Exited?;
    assert p.next == |jobs|;
    forall job: nat
      ensures Times(p.delivered, job) == (if job < |jobs| then 1 else 0)
      ensures Times(p.runs, job) == (if job < |jobs| && jobs[job].runnable then 1 else 0)
    {
      assert JobOk(p, jobs, job);
      CountNone(p.workers, Holds(job));
      CountNone(p.workers, Started(job));
    }
    OrderDoesNotMatter(p.delivered, jobs);
  }

  lemma {:induction false} SameWorkers(p: Pool, jobs: seq<Job>, pauses: bool, actions: seq<Action>)
    requires Possible(p, jobs, pauses, actions)
    ensures |Run(p, jobs, pauses, actions).workers| == |p.workers|
    decreases |actions|
  {
    if actions != [] {
      SameWorkers(Next(p, jobs, pauses, actions[0]), jobs, pauses, actions[1..]);
    }
  }

  // ---------------------------------------------------------------------------------------
  // Progress
  // ---------------------------------------------------------------------------------------

  function Rank(w: Worker): nat {
    match w
    case Exited => 0
    case Idle => 1
    case Pausing => 2
    case Sending(_) => 4
    case Running(_) => 5
    case Got(_) => 6
  }

  function RankSum(workers: seq<Worker>): nat {
    if workers == [] then 0 else Rank(workers[0]) + RankSum(workers[1..])
  }

  function Leftover(p: Pool): nat {
    (match p.feeder case Offering => 2 case Closing => 1 case FeederGone => 0)
    + (if p.closer.AwaitingWorkers? then 1 else 0)
    + (match p.collector case Returned => 0 case Receiving => 1 case Reporting => 2)
    + (if p.cancelled then 0 else 1)
  }

  /** How much can still happen, at most. */
  function Remaining(p: Pool, jobs: seq<Job>): int {
    10 * (|jobs| - p.next) + RankSum(p.workers) + Leftover(p)
  }

  lemma {:induction false} RankUpdate(workers: seq<Worker>, i: nat, x: Worker)
    requires i < |workers|
    ensures RankSum(workers[i := x]) == RankSum(workers) - Rank(workers[i]) + Rank(x)
  {
    if i == 0 {
      assert workers[i := x][1..] == workers[1..];
    } else {
      assert workers[i := x][1..] == workers[1..][i - 1 := x];
      RankUpdate(workers[1..], i - 1, x);
    }
  }

  /** A step of one worker, with what it does to the feeder and the collector. */
  lemma WorkerUsesUp(p: Pool, p': Pool, jobs: seq<Job>, w: nat, x: Worker)
    requires w < |p.workers| && p'.workers == p.workers[w := x]
    requires 10 * (p'.next - p.next) + Rank(p.workers[w]) - Rank(x) + Leftover(p) - Leftover(p') > 0
    ensures Remaining(p', jobs) < Remaining(p, jobs)
  {
    RankUpdate(p.workers, w, x);
  }

  /** Every step of a worker, with whoever it meets. */
  lemma WorkerStepsRunOut(p: Pool, jobs: seq<Job>, pauses: bool, a: Action)
    requires Enabled(p, jobs, a)
    requires a.Hand? || a.QuitCancelled? || a.QuitClosed? || a.Begin? || a.EndRun? || a.Deliver? || a.Resume?
    ensures Remaining(Next(p, jobs, pauses, a), jobs) < Remaining(p, jobs)
  {
    var p' := Next(p, jobs, pauses, a);
    WorkerUsesUp(p, p', jobs, a.w, p'.workers[a.w]);
  }

  lemma OtherStepsRunOut(p: Pool, jobs: seq<Job>, pauses: bool, a: Action)
    requires Enabled(p, jobs, a)
    requires a.Cancel? || a.FeederQuits? || a.FeederEnds? || a.CloseJobs? || a.CloseResults? || a.Report? || a.Return?
    ensures Remaining(Next(p, jobs, pauses, a), jobs) < Remaining(p, jobs)
  {
    var p' := Next(p, jobs, pauses, a);
    assert p'.workers == p.workers && p'.next == p.next;
  }

  /** Every step uses something up, so the pool cannot go on for ever. */
  lemma StepsRunOut(p: Pool, jobs: seq<Job>, pauses: bool, a: Action)
    requires p.next <= |jobs| && Enabled(p, jobs, a)
    ensures 0 <= Remaining(Next(p, jobs, pauses, a), jobs) < Remaining(p, jobs)
  {
    if a.Hand? || a.QuitCancelled? || a.QuitClosed? || a.Begin? || a.EndRun? || a.Deliver? || a.Resume? {
      WorkerStepsRunOut(p, jobs, pauses, a);
    } else {
      OtherStepsRunOut(p, jobs, pauses, a);
    }
  }

  /** No run is longer than what the initial state allows. */
  lemma {:induction false} RunsAreBounded(p: Pool, jobs: seq<Job>, pauses: bool, actions: seq<Action>)
    requires ChannelsOk(p, jobs) && Possible(p, jobs, pauses, actions)
    ensures |actions| <= Remaining(p, jobs)
    decreases |actions|
  {
    if actions != [] {
      StepsRunOut(p, jobs, pauses, actions[0]);
      NextChannels(p, jobs, pauses, actions[0]);
      RunsAreBounded(Next(p, jobs, pauses, actions[0]), jobs, pauses, actions[1..]);
    }
  }

  /**
   As long as anything is left running, something other than a cancellation can happen: the
   pool never deadlocks. With the bound above, every run that is kept going ends in `Final`.
   */
  lemma NeverStuck(p: Pool, jobs: seq<Job>) returns (a: Action)
    requires ChannelsOk(p, jobs) && p.workers != [] && !Final(p)
    ensures a != Cancel && Enabled(p, jobs, a)
  {
    if w: nat :| w < |p.workers| && !p.workers[w].Exited? {
      match p.workers[w]
      case Idle =>
        a := if p.feeder.FeederGone? then QuitClosed(w)
             else if p.feeder.Closing? then CloseJobs
             else if p.next < |jobs| then Hand(w) else FeederEnds;
      case Got(_) => a := if p.cancelled then QuitCancelled(w) else Begin(w);
      case Running(_) => a := EndRun(w);
      case Sending(_) => a := if p.collector.Reporting? then Report else Deliver(w);
      case Pausing => a := Resume(w);
    } else {
      assert p.workers[0].Exited?;
      a := if p.closer.AwaitingWorkers? then CloseResults
           else if p.collector.Reporting? then Report
           else if p.collector.Receiving? then Return
           else if p.feeder.Closing? then CloseJobs
           else FeederQuits;
    }
  }

  /** From the start, under every interleaving: the steps are bounded in number, and short of the end there is always a next one. */
  lemma PoolAlwaysEnds(jobs: seq<Job>, concurrency: int, pauses: bool, actions: seq<Action>)
    requires jobs != [] && Possible(Initial(jobs, concurrency), jobs, pauses, actions)
    ensures |actions| <= Remaining(Initial(jobs, concurrency), jobs)
    ensures var p := Run(Initial(jobs, concurrency), jobs, pauses, actions);
            Final(p) || exists a :: a != Cancel && Enabled(p, jobs, a)
  {
    var start := Initial(jobs, concurrency);
    var p := Run(start, jobs, pauses, actions);
    InitialInv(jobs, concurrency);
    RunInv(start, jobs, pauses, actions);
    RunsAreBounded(start, jobs, pauses, actions);
    SameWorkers(start, jobs, pauses, actions);
    if !Final(p) {
      var a := NeverStuck(p, jobs);
    }
  }
}
