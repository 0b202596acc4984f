/** The channel record that detection and application change in place. */
module UpstreamSync {
  import opened Options
  import opened NameLists
  import opened Text
  import opened UpstreamModel

  datatype CheckResult = Skipped | FetchFailed | StoreFailed(added: int) | Checked(modelsChanged: bool, added: int)

  /** What an application reports: what took effect and what is still pending, or that it could not be stored. */
  datatype ApplyResult =
    | NotStored
    | Applied(chosen: Selection, remaining: seq<string>, remainingRemove: seq<string>, modelsChanged: bool)

  class UpstreamChannel {
    var models: string
    var ignored: seq<string>
    var detected: seq<string>
    var removed: seq<string>
    var lastCheck: int
    var autoSync: bool

    constructor (ch: Channel)
      ensures View() == ch
    {
      models, ignored, detected, removed, lastCheck, autoSync := ch.models, ch.ignored, ch.detected, ch.removed, ch.lastCheck, ch.autoSync;
    }

    function View(): Channel
      reads this
    {
      Channel(models, ignored, detected, removed, lastCheck, autoSync)
    }

    /**
     Detection, with automatic additions where they are allowed. `fetched` is the upstream's answer,
     None for an error; `stored` is whether the database took the new state.
     */
    method Check(now: int, force: bool, minInterval: int, fetched: Option<seq<string>>, mapping: map<string, string>,
                 matches: Matcher, allowAutoApply: bool, stored: bool) returns (result: CheckResult)
      modifies this
      ensures result.Skipped? <==> !force && old(lastCheck) > 0 && now - old(lastCheck) < minInterval
      ensures result.Skipped? ==> View() == old(View())
      ensures !result.Skipped? ==> lastCheck == now
      ensures ignored == old(ignored) && autoSync == old(autoSync)
      ensures !result.Skipped? && fetched.None? ==> View() == old(View()).(lastCheck := now)
      ensures !result.Skipped? && fetched.Some? ==> View() == CheckStep(old(View()), now, fetched.value, mapping, matches, allowAutoApply)
      ensures result.Checked? ==>
                && fetched.Some? && stored
                && (result.modelsChanged <==> result.added > 0) && (!result.modelsChanged ==> models == old(models))
                && result.added == AutoAdded(old(View()), fetched.value, mapping, matches, allowAutoApply)
    {
      if !force && lastCheck > 0 && now - lastCheck < minInterval {
        return Skipped;
      }
      lastCheck := now;
      if fetched.None? {
        return if stored then FetchFailed else StoreFailed(0);
      }
      var add := PendingAdd(GetModels(models), fetched.value, ignored, mapping, matches);
      var remove := PendingRemove(GetModels(models), fetched.value, mapping);
      var modelsChanged, added := false, 0;
      if allowAutoApply && autoSync && |add| > 0 {
        var origin := Normalize(GetModels(models));
        MergeIsUnion(origin, add);
        NormalizeIsNormal(GetModels(models));
        NormalizeNormal(origin);
        var merged := MergeModelNames(origin, add);
        if |merged| > |origin| {
          models := Join(merged, ',');
          added := |merged| - |origin|;
          modelsChanged := true;
        }
        detected := [];
      } else {
        detected := add;
      }
      removed := remove;
      return if stored then Checked(modelsChanged, added) else StoreFailed(added);
    }

    /** Application of a selection among what is pending. The record in hand is changed also if the database does not take it. */
    method Apply(wanted: Selection, now: int, stored: bool) returns (result: ApplyResult)
      modifies this
      ensures View() == ApplyStep(old(View()), wanted, now)
      ensures lastCheck == now && autoSync == old(autoSync)
      ensures result.NotStored? <==> !stored
      ensures result.Applied? ==>
                && result.chosen == Effective(old(View()), wanted)
                && result.remaining == detected && result.remainingRemove == removed
                && (result.modelsChanged <==> Changes(old(View()), result.chosen))
    {
      var chosen := Effective(View(), wanted);
      var modelsChanged := TakeSelection(chosen, now);
      return if stored then Applied(chosen, detected, removed, modelsChanged) else NotStored;
    }

    method TakeSelection(chosen: Selection, now: int) returns (changed: bool)
      modifies this
      ensures View() == ApplyChosen(old(View()), chosen, now)
      ensures changed <==> Changes(old(View()), chosen)
    {
      changed := ReplaceModels(chosen);
      UpdateIgnored(chosen);
      UpdatePending(chosen);
      lastCheck := now;
    }

    method ReplaceModels(chosen: Selection) returns (changed: bool)
      modifies this`models
      ensures models == NextModels(old(View()), chosen)
      ensures changed <==> Changes(old(View()), chosen)
    {
      var origin := Local(View());
      var next := ApplySelected(origin, chosen.add, chosen.remove);
      changed := origin != next;
      if changed {
        models := Join(next, ',');
      }
    }

    method UpdatePending(chosen: Selection)
      modifies this`detected, this`removed
      ensures detected == NextDetected(old(detected), chosen) && removed == NextRemoved(old(removed), chosen)
    {
      detected := Subtract(Normalize(detected), chosen.add + chosen.ignore);
      removed := Subtract(Normalize(removed), chosen.remove);
    }

    method UpdateIgnored(chosen: Selection)
      modifies this`ignored
      ensures ignored == NextIgnored(old(ignored), chosen)
    {
      ignored := MergeModelNames(ignored, chosen.ignore);
      if |chosen.add| > 0 {
        ignored := Subtract(ignored, chosen.add);
      }
    }
  }
}
