/**
 What one health check counts, and what that makes of the sum over a whole pool. Probing the
 upstream, the database and the settings are inputs.
 */
module HealthCheck {
  import opened Options
  import opened WorkerPoolModel

  datatype Status = Enabled | ManuallyDisabled | AutoDisabled | OtherStatus

  datatype Settings = Settings(autoDisable: bool, autoEnable: bool)

  /** The outcome of one probe. `fatal` is whether its API error is of a kind that disables channels. */
  datatype Probe = Probe(localErr: bool, apiError: bool, fatal: bool, hasContext: bool, millis: int)

  /** A channel as read from the database just before it is probed. */
  datatype Channel = Channel(status: Status, multiKey: bool, identities: seq<string>)

  /** One key of an auto-disabled channel: what happens around and during its probe. */
  datatype KeyProbe = KeyProbe(
    cancelledBefore: bool,
    channel: Option<Status>,   // None when the database read fails
    keyFound: bool,
    probe: Probe,
    cancelledAfter: bool,
    enabled: bool)             // whether the database accepted the recovery

  function ShouldDisable(settings: Settings, probe: Probe): bool {
    settings.autoDisable && probe.apiError && probe.fatal
  }

  function ShouldEnable(settings: Settings, apiError: bool, status: Status): bool {
    settings.autoEnable && !apiError && status == AutoDisabled
  }

  /** The figures of any check add up. */
  predicate Consistent(s: Summary) {
    var Summary(tested, succeeded, failed, disabled, enabled) := s;
    tested == succeeded + failed && disabled <= failed && enabled <= succeeded
  }

  /** The key at which the recovery loop gives up. */
  predicate Stops(key: KeyProbe) {
    key.cancelledBefore || key.channel.None? || key.channel.value == ManuallyDisabled || (key.keyFound && key.cancelledAfter)
  }

  predicate Slow(settings: Settings, threshold: int, probe: Probe) {
    settings.autoDisable && probe.millis > threshold
  }

  predicate Healthy(settings: Settings, threshold: int, probe: Probe) {
    !probe.localErr && !probe.apiError && !Slow(settings, threshold, probe)
  }

  /** What one key adds to the figures. */
  function KeySummary(settings: Settings, threshold: int, key: KeyProbe): Summary {
    var healthy := Healthy(settings, threshold, key.probe);
    Summary(
      One(key.keyFound),
      One(key.keyFound && healthy),
      One(key.keyFound && !healthy),
      0,
      One(key.keyFound && healthy && key.probe.hasContext && settings.autoEnable && key.enabled))
  }

  function One(b: bool): nat {
    if b then 1 else 0
  }

  /** The figures of the keys from `i` up to the first one the loop stops at. */
  function KeysSummary(settings: Settings, threshold: int, keys: seq<KeyProbe>, i: nat): Summary
    requires i <= |keys|
    decreases |keys| - i
  {
    if i == |keys| || Stops(keys[i]) then ZERO
    else Add(KeySummary(settings, threshold, keys[i]), KeysSummary(settings, threshold, keys, i + 1))
  }

  lemma AddZero(s: Summary)
    ensures Add(ZERO, s) == s && Add(s, ZERO) == s
  {}

  lemma AddAssociates(a: Summary, b: Summary, c: Summary)
    ensures Add(Add(a, b), c) == Add(a, Add(b, c))
  {}

  lemma {:induction false} KeysConsistent(settings: Settings, threshold: int, keys: seq<KeyProbe>, i: nat)
    requires i <= |keys|
    ensures Consistent(KeysSummary(settings, threshold, keys, i))
    decreases |keys| - i
  {
    if i < |keys| && !Stops(keys[i]) {
      KeysConsistent(settings, threshold, keys, i + 1);
      KeyConsistent(settings, threshold, keys[i]);
      AddConsistent(KeySummary(settings, threshold, keys[i]), KeysSummary(settings, threshold, keys, i + 1));
    }
  }

  lemma KeyConsistent(settings: Settings, threshold: int, key: KeyProbe)
    ensures Consistent(KeySummary(settings, threshold, key))
  {}

  lemma AddConsistent(a: Summary, b: Summary)
    requires Consistent(a) && Consistent(b)
    ensures Consistent(Add(a, b))
  {}

  /** One key of the recovery loop, counted into `sum`. */
  method CountKey(settings: Settings, threshold: int, key: KeyProbe, sum: Summary) returns (summary: Summary)
    ensures summary == Add(sum, KeySummary(settings, threshold, key))
  {
    summary := sum;
    if !key.keyFound {
      return;
    }
    summary := summary.(tested := summary.tested + 1);
    if key.probe.localErr || key.probe.apiError {
      return summary.(failed := summary.failed + 1);
    }
    if settings.autoDisable && key.probe.millis > threshold {
      return summary.(failed := summary.failed + 1);
    }
    summary := summary.(succeeded := summary.succeeded + 1);
    if key.probe.hasContext && ShouldEnable(settings, false, AutoDisabled) && key.enabled {
      summary := summary.(enabled := summary.enabled + 1);
    }
  }

  /** Where the recovery loop breaks off: before the probe, or after it if the key was there to be probed. */
  method GivesUp(key: KeyProbe) returns (stop: bool)
    ensures stop <==> Stops(key)
  {
    if key.cancelledBefore {
      return true;
    }
    if key.channel.None? || key.channel.value == ManuallyDisabled {
      return true;
    }
    if !key.keyFound {
      return false;
    }
    return key.cancelledAfter;
  }

  /** The recovery probes of an auto-disabled multi-key channel, one key after the other. */
  method TestAutoDisabledKeys(settings: Settings, threshold: int, keys: seq<KeyProbe>) returns (summary: Summary)
    ensures summary == KeysSummary(settings, threshold, keys, 0)
  {
    summary := ZERO;
    var i := 0;
    AddZero(KeysSummary(settings, threshold, keys, 0));
    while i < |keys|
      invariant 0 <= i <= |keys|
      invariant KeysSummary(settings, threshold, keys, 0) == Add(summary, KeysSummary(settings, threshold, keys, i))
    {
      var stop := GivesUp(keys[i]);
      if stop {
        AddZero(summary);
        return;
      }
      AddAssociates(summary, KeySummary(settings, threshold, keys[i]), KeysSummary(settings, threshold, keys, i + 1));
      summary := CountKey(settings, threshold, keys[i], summary);
      i := i + 1;
    }
    AddZero(summary);
  }

  /** The way a check of a channel goes. */
  datatype CheckKind = Recovery | Skip | Single

  function Kind(channel: Channel): CheckKind {
    if channel.status == ManuallyDisabled then Skip
    else if channel.multiKey && channel.status == AutoDisabled && channel.identities != [] then Recovery
    else if channel.multiKey && channel.status != Status.Enabled then Skip
    else Single
  }

  /** Everything around the probe of a single channel. `after` is its status on the second database read. */
  datatype Surroundings = Surroundings(
    allowDisable: bool, threshold: int, cancelled: bool, after: Option<Status>, autoBan: bool, enabled: bool)

  /** An enabled channel is disabled for a fatal API error or for being slow. */
  predicate Disables(settings: Settings, status: Status, probe: Probe, around: Surroundings) {
    && around.allowDisable && around.autoBan && probe.hasContext && settings.autoDisable
    && status == Status.Enabled && around.after == Some(Status.Enabled)
    && ((probe.apiError && probe.fatal) || (probe.millis > around.threshold && (probe.apiError || !probe.localErr)))
  }

  /** A channel that was not enabled is recovered by a healthy probe while it is auto-disabled. */
  predicate Recovers(settings: Settings, status: Status, probe: Probe, around: Surroundings) {
    && Healthy(settings, around.threshold, probe) && probe.hasContext && settings.autoEnable && around.enabled
    && status != Status.Enabled && around.after == Some(AutoDisabled)
  }

  function SingleSummary(settings: Settings, status: Status, probe: Probe, around: Surroundings): Summary {
    if around.cancelled then ZERO
    else if Healthy(settings, around.threshold, probe)
    then Summary(1, 1, 0, 0, if Recovers(settings, status, probe, around) then 1 else 0)
    else Summary(1, 0, 1, if Disables(settings, status, probe, around) then 1 else 0, 0)
  }

  /** When a channel is not probed: manually disabled, or a multi-key channel that is neither enabled nor has keys to recover. */
  lemma SkippedExactly(channel: Channel)
    ensures Kind(channel) == Skip <==>
              || channel.status == ManuallyDisabled
              || (channel.multiKey && channel.status != Status.Enabled && !(channel.status == AutoDisabled && |channel.identities| > 0))
    ensures Kind(channel) == Recovery <==> channel.multiKey && channel.status == AutoDisabled && |channel.identities| > 0
  {}

  /**
   The figures of a single probe by its inputs. It succeeds unless there was an error or, with automatic disabling, it
   took too long. The channel is counted as disabled, or as enabled, exactly in the cases written out.
   */
  lemma SingleExactly(settings: Settings, status: Status, probe: Probe, around: Surroundings)
    ensures var s := SingleSummary(settings, status, probe, around);
            var slow := settings.autoDisable && probe.millis > around.threshold;
            && s.tested == (if around.cancelled then 0 else 1) && s.failed == s.tested - s.succeeded
            && (s.succeeded == 1 <==> !around.cancelled && !probe.localErr && !probe.apiError && !slow) && s.succeeded <= 1
            && s.disabled <= 1 && s.enabled <= 1
            && (s.disabled == 1 <==>
                  && !around.cancelled && around.allowDisable && around.autoBan && probe.hasContext
                  && status == Status.Enabled && around.after == Some(Status.Enabled)
                  && ((settings.autoDisable && probe.apiError && probe.fatal) || (slow && (probe.apiError || !probe.localErr))))
            && (s.enabled == 1 <==>
                  && !around.cancelled && !probe.localErr && !probe.apiError && !slow && probe.hasContext
                  && settings.autoEnable && around.enabled && status != Status.Enabled && around.after == Some(AutoDisabled))
  {}

  /** What one recovered key adds, by its inputs. */
  lemma KeyExactly(settings: Settings, threshold: int, key: KeyProbe)
    ensures var s := KeySummary(settings, threshold, key);
            var good := !key.probe.localErr && !key.probe.apiError && !(settings.autoDisable && key.probe.millis > threshold);
            && s.tested == (if key.keyFound then 1 else 0) && s.disabled == 0
            && s.succeeded == (if key.keyFound && good then 1 else 0) && s.failed == s.tested - s.succeeded
            && s.enabled == (if key.keyFound && good && key.probe.hasContext && settings.autoEnable && key.enabled then 1 else 0)
    ensures Stops(key) <==>
              || key.cancelledBefore || key.channel == None || key.channel == Some(ManuallyDisabled)
              || (key.keyFound && key.cancelledAfter)
  {}

  /** The single-channel part of a check. */
  method TestSingle(settings: Settings, status: Status, probe: Probe, around: Surroundings) returns (summary: Summary)
    ensures summary == SingleSummary(settings, status, probe, around)
  {
    summary := ZERO;
    var wasEnabled := status == Status.Enabled;
    if around.cancelled {
      return;
    }
    summary := summary.(tested := 1);
    if probe.localErr && !probe.apiError {
      return summary.(failed := 1);
    }
    var apiError := probe.apiError;
    var shouldBan := apiError && ShouldDisable(settings, probe);
    if settings.autoDisable && !shouldBan && probe.millis > around.threshold {
      apiError := true;
      shouldBan := true;
    }
    if !apiError {
      summary := summary.(succeeded := 1);
    } else {
      summary := summary.(failed := 1);
    }
    if around.after.None? {
      return;
    }
    if around.allowDisable && wasEnabled && around.after.value == Status.Enabled && shouldBan && around.autoBan && probe.hasContext {
      summary := summary.(disabled := 1);
    }
    if !probe.localErr && probe.hasContext && !wasEnabled && ShouldEnable(settings, apiError, around.after.value) && around.enabled {
      summary := summary.(enabled := 1);
    }
  }

  /** One health check; `before` is the first database read, `keys` the recovery probes if it comes to those. */
  method TestChannel(settings: Settings, cancelledBefore: bool, before: Option<Channel>, probe: Probe,
                     around: Surroundings, keys: seq<KeyProbe>) returns (summary: Summary)
    ensures Consistent(summary)
    ensures summary ==
              if cancelledBefore || before.None? then ZERO
              else match Kind(before.value)
                   case Skip => ZERO
                   case Recovery => KeysSummary(settings, around.threshold, keys, 0)
                   case Single => SingleSummary(settings, before.value.status, probe, around)
  {
    if cancelledBefore || before.None? || before.value.status == ManuallyDisabled {
      return ZERO;
    }
    var channel := before.value;
    if channel.multiKey {
      if channel.status == AutoDisabled && |channel.identities| > 0 {
        KeysConsistent(settings, around.threshold, keys, 0);
        summary := TestAutoDisabledKeys(settings, around.threshold, keys);
        return;
      }
      if channel.status != Status.Enabled {
        return ZERO;
      }
    }
    summary := TestSingle(settings, channel.status, probe, around);
  }
}

/** The figures of a whole pool. */
module PoolFigures {
  import opened WorkerPoolModel
  import opened WorkerPoolTheorems
  import opened HealthCheck

  lemma {:induction false} TotalConsistent(delivered: seq<nat>, jobs: seq<Job>)
    requires forall i :: 0 <= i < |jobs| ==> Consistent(jobs[i].outcome)
    ensures Consistent(Total(delivered, jobs))
    decreases |delivered|
  {
    if delivered != [] {
      TotalConsistent(delivered[..|delivered| - 1], jobs);
    }
  }

  /** At every moment of every run, cancelled or not, the pool's figures add up. */
  lemma PoolConsistent(jobs: seq<Job>, concurrency: int, pauses: bool, actions: seq<Action>)
    requires forall i :: 0 <= i < |jobs| ==> Consistent(jobs[i].outcome)
    requires Possible(Initial(jobs, concurrency), jobs, pauses, actions)
    ensures Consistent(Run(Initial(jobs, concurrency), jobs, pauses, actions).summary)
  {
    InitialInv(jobs, concurrency);
    RunInv(Initial(jobs, concurrency), jobs, pauses, actions);
    TotalConsistent(Run(Initial(jobs, concurrency), jobs, pauses, actions).delivered, jobs);
  }
}
