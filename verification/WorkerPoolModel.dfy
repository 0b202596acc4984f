/**
 The bounded pool that tests channels: one feeder, `workerCount` workers and the collector,
 joined by two unbuffered channels. A hand-over on a channel is one step of both parties.
 */
module WorkerPoolModel {

  datatype Summary = Summary(tested: nat, succeeded: nat, failed: nat, disabled: nat, enabled: nat)

  const ZERO := Summary(0, 0, 0, 0, 0)

  function Add(a: Summary, b: Summary): Summary {
    Summary(a.tested + b.tested, a.succeeded + b.succeeded, a.failed + b.failed, a.disabled + b.disabled, a.enabled + b.enabled)
  }

  /** One job: whether its channel is run at all, and what running it would report. */
  datatype Job = Job(runnable: bool, outcome: Summary)

  function ResultOf(job: Job): Summary {
    if job.runnable then job.outcome else ZERO
  }

  /** Job numbers are positions in the list of channels. */
  datatype Worker = Idle | Got(job: nat) | Running(job: nat) | Sending(job: nat) | Pausing | Exited

  /** The feeder offers one job after the other, leaves its loop, and closes the jobs channel on its way out. */
  datatype Feeder = Offering | Closing | FeederGone

  /** The goroutine that waits for all workers and then closes the results channel. */
  datatype Closer = AwaitingWorkers | CloserGone

  datatype Collector = Receiving | Reporting | Returned

  /**
   `jobsCloses` and `resultsCloses` count how often each channel has been closed. `runs` and
   `delivered` record the jobs that were run and the jobs whose results arrived, in order.
   */
  datatype Pool = Pool(
    cancelled: bool,
    next: nat,
    feeder: Feeder,
    jobsCloses: nat,
    workers: seq<Worker>,
    closer: Closer,
    resultsCloses: nat,
    collector: Collector,
    summary: Summary,
    processed: nat,
    reports: seq<nat>,
    runs: seq<nat>,
    delivered: seq<nat>)

  const DEFAULT_CONCURRENCY := 1
  const MAX_CONCURRENCY := 32

  function NormalizeConcurrency(concurrency: int): nat {
    if concurrency < 1 then DEFAULT_CONCURRENCY
    else if concurrency > MAX_CONCURRENCY then MAX_CONCURRENCY
    else concurrency
  }

  function WorkerCount(jobs: seq<Job>, concurrency: int): nat {
    var wanted := NormalizeConcurrency(concurrency);
    if wanted < |jobs| then wanted else |jobs|
  }

  /** The state once everything has been started; progress 0 has been reported. */
  function Initial(jobs: seq<Job>, concurrency: int): Pool {
    Pool(false, 0, Offering, 0, seq(WorkerCount(jobs, concurrency), i => Idle), AwaitingWorkers, 0, Receiving, ZERO, 0, [0], [], [])
  }

  datatype Action =
    | Cancel
    | Hand(w: nat)           // feeder and worker meet on the jobs channel
    | FeederQuits            // the feeder sees the cancellation and leaves its loop
    | FeederEnds             // all jobs are handed out; the feeder leaves its loop
    | CloseJobs              // the feeder's deferred close
    | QuitCancelled(w: nat)  // a worker sees the cancellation
    | QuitClosed(w: nat)     // a worker sees that jobs is closed
    | Begin(w: nat)          // a worker runs its job, or skips one that is not runnable
    | EndRun(w: nat)
    | Deliver(w: nat)        // worker and collector meet on the results channel
    | Resume(w: nat)         // the pause between jobs is over
    | CloseResults           // all workers are done
    | Report                 // the collector reports progress unless cancelled
    | Return                 // the collector sees that results is closed

  predicate Enabled(p: Pool, jobs: seq<Job>, a: Action) {
    match a
    case Cancel => !p.cancelled
    case Hand(w) => p.feeder.Offering? && p.next < |jobs| && w < |p.workers| && p.workers[w].Idle?
    case FeederQuits => p.feeder.Offering? && p.cancelled
    case FeederEnds => p.feeder.Offering? && p.next >= |jobs|
    case CloseJobs => p.feeder.Closing?
    case QuitCancelled(w) =>
      w < |p.workers| && p.cancelled && (p.workers[w].Idle? || p.workers[w].Got? || p.workers[w].Pausing?)
    case QuitClosed(w) => w < |p.workers| && p.jobsCloses > 0 && p.workers[w].Idle?
    case Begin(w) => w < |p.workers| && !p.cancelled && p.workers[w].Got? && p.workers[w].job < |jobs|
    case EndRun(w) => w < |p.workers| && p.workers[w].Running?
    case Deliver(w) => w < |p.workers| && p.workers[w].Sending? && p.workers[w].job < |jobs| && p.collector.Receiving?
    case Resume(w) => w < |p.workers| && p.workers[w].Pausing?
    case CloseResults => p.closer.AwaitingWorkers? && (forall i :: 0 <= i < |p.workers| ==> p.workers[i].Exited?)
    case Report => p.collector.Reporting?
    case Return => p.collector.Receiving? && p.resultsCloses > 0
  }

  function Next(p: Pool, jobs: seq<Job>, pauses: bool, a: Action): Pool
    requires Enabled(p, jobs, a)
  {
    match a
    case Cancel => p.(cancelled := true)
    case Hand(w) => p.(workers := p.workers[w := Got(p.next)], next := p.next + 1)
    case FeederQuits => p.(feeder := Closing)
    case FeederEnds => p.(feeder := Closing)
    case CloseJobs => p.(feeder := FeederGone, jobsCloses := p.jobsCloses + 1)
    case QuitCancelled(w) => p.(workers := p.workers[w := Exited])
    case QuitClosed(w) => p.(workers := p.workers[w := Exited])
    case Begin(w) =>
      var job := p.workers[w].job;
      if jobs[job].runnable then p.(workers := p.workers[w := Running(job)], runs := p.runs + [job])
      else p.(workers := p.workers[w := Sending(job)])
    case EndRun(w) => p.(workers := p.workers[w := Sending(p.workers[w].job)])
    case Deliver(w) =>
      var job := p.workers[w].job;
      p.(workers := p.workers[w := if pauses then Pausing else Idle],
         collector := Reporting,
         summary := Add(p.summary, ResultOf(jobs[job])),
         processed := p.processed + 1,
         delivered := p.delivered + [job])
    case Resume(w) => p.(workers := p.workers[w := Idle])
    case CloseResults => p.(closer := CloserGone, resultsCloses := p.resultsCloses + 1)
    case Report => p.(collector := Receiving, reports := if p.cancelled then p.reports else p.reports + [p.processed])
    case Return => p.(collector := Returned)
  }

  /** Each action is enabled where it is taken. */
  predicate Possible(p: Pool, jobs: seq<Job>, pauses: bool, actions: seq<Action>)
    decreases |actions|
  {
    actions == [] || (Enabled(p, jobs, actions[0]) && Possible(Next(p, jobs, pauses, actions[0]), jobs, pauses, actions[1..]))
  }

  function Run(p: Pool, jobs: seq<Job>, pauses: bool, actions: seq<Action>): Pool
    requires Possible(p, jobs, pauses, actions)
    decreases |actions|
  {
    if actions == [] then p else Run(Next(p, jobs, pauses, actions[0]), jobs, pauses, actions[1..])
  }

  /** Nothing is left running: the caller has its summary, and no goroutine is leaked. */
  predicate Final(p: Pool) {
    p.collector.Returned? && p.feeder.FeederGone? && p.closer.CloserGone? && (forall i :: 0 <= i < |p.workers| ==> p.workers[i].Exited?)
  }
}
