/**
 Keeping a channel's model list in step with its upstream: detection of what is missing and
 what is gone, and the application of the changes an administrator selects.
 */
module UpstreamModel {
  import opened Text
  import opened NameLists

  /** Whether a regular expression matches somewhere in a name; false for one that does not compile. */
  type Matcher = (string, string) -> bool

  /** The fields of a channel and its settings that the synchronisation reads and writes. */
  datatype Channel = Channel(
    models: string,          // comma separated
    ignored: seq<string>,    // names and "regex:" rules
    detected: seq<string>,   // pending additions
    removed: seq<string>,    // pending removals
    lastCheck: int,
    autoSync: bool)

  function GetModels(models: string): seq<string> {
    if models == "" then [] else Split(TrimChar(models, ','), ',')
  }

  function Local(ch: Channel): seq<string> {
    Normalize(GetModels(ch.models))
  }

  const REGEX := "regex:"

  predicate Hits(rule: string, name: string, matches: Matcher) {
    if HasPrefix(rule, REGEX) then matches(TrimSpace(rule[|REGEX|..]), name) else rule == name
  }

  predicate Ignores(rules: seq<string>, name: string, matches: Matcher) {
    exists rule :: rule in rules && Hits(rule, name, matches)
  }

  /** An upstream name that is neither local nor a redirect's target nor ignored. */
  predicate Missing(name: string, local: seq<string>, targets: set<string>, rules: seq<string>, matches: Matcher) {
    name !in local && name !in targets && !Ignores(rules, name, matches)
  }

  /** A local name that upstream does not have, unless it is the source of a redirect. */
  predicate Gone(name: string, upstream: seq<string>, sources: set<string>) {
    name !in sources && name !in upstream
  }

  function PendingAdd(local: seq<string>, upstream: seq<string>, ignored: seq<string>, mapping: map<string, string>,
                      matches: Matcher): seq<string> {
    var l, rules, targets := Normalize(local), Normalize(ignored), mapping.Values;
    Normalize(Filter(Normalize(upstream), name => Missing(name, l, targets, rules, matches)))
  }

  function PendingRemove(local: seq<string>, upstream: seq<string>, mapping: map<string, string>): seq<string> {
    var u, sources := Normalize(upstream), mapping.Keys;
    Normalize(Filter(Normalize(local), name => Gone(name, u, sources)))
  }

  /** Detection: the pending lists are replaced. With automatic sync, additions are applied at once. */
  function CheckStep(ch: Channel, now: int, upstream: seq<string>, mapping: map<string, string>, matches: Matcher,
                     allowAutoApply: bool): Channel {
    var add := PendingAdd(GetModels(ch.models), upstream, ch.ignored, mapping, matches);
    var remove := PendingRemove(GetModels(ch.models), upstream, mapping);
    var checked := ch.(lastCheck := now, removed := remove);
    if allowAutoApply && ch.autoSync && add != [] then
      var merged := Merge(Local(ch), add);
      checked.(models := if |merged| > |Local(ch)| then Join(merged, ',') else ch.models, detected := [])
    else checked.(detected := add)
  }

  function AutoAdded(ch: Channel, upstream: seq<string>, mapping: map<string, string>, matches: Matcher,
                     allowAutoApply: bool): int {
    var add := PendingAdd(GetModels(ch.models), upstream, ch.ignored, mapping, matches);
    if allowAutoApply && ch.autoSync && add != [] then |Merge(Local(ch), add)| - |Local(ch)| else 0
  }

  /** Additions win over removals of the same name. */
  function ApplySelected(origin: seq<string>, add: seq<string>, remove: seq<string>): seq<string> {
    Subtract(Merge(origin, Normalize(add)), Subtract(Normalize(remove), Normalize(add)))
  }

  /** What the selection comes down to, given what is pending. */
  datatype Selection = Selection(add: seq<string>, ignore: seq<string>, remove: seq<string>)

  function Effective(ch: Channel, wanted: Selection): Selection {
    var pendingAdd, pendingRemove := Normalize(ch.detected), Normalize(ch.removed);
    var add := Intersect(wanted.add, pendingAdd);
    Selection(add, Intersect(wanted.ignore, pendingAdd), Subtract(Intersect(wanted.remove, pendingRemove), add))
  }

  /** Models that are added are no longer ignored. */
  function NextIgnored(ignored: seq<string>, chosen: Selection): seq<string> {
    var merged := Merge(ignored, chosen.ignore);
    if chosen.add != [] then Subtract(merged, chosen.add) else merged
  }

  /** The selection makes a different list of models. */
  predicate Changes(ch: Channel, chosen: Selection) {
    ApplySelected(Local(ch), chosen.add, chosen.remove) != Local(ch)
  }

  function NextModels(ch: Channel, chosen: Selection): string {
    if Changes(ch, chosen) then Join(ApplySelected(Local(ch), chosen.add, chosen.remove), ',') else ch.models
  }

  function NextDetected(detected: seq<string>, chosen: Selection): seq<string> {
    Subtract(Normalize(detected), chosen.add + chosen.ignore)
  }

  function NextRemoved(removed: seq<string>, chosen: Selection): seq<string> {
    Subtract(Normalize(removed), chosen.remove)
  }

  function ApplyChosen(ch: Channel, chosen: Selection, now: int): Channel {
    Channel(
      NextModels(ch, chosen),
      NextIgnored(ch.ignored, chosen),
      NextDetected(ch.detected, chosen),
      NextRemoved(ch.removed, chosen),
      now,
      ch.autoSync)
  }

  function ApplyStep(ch: Channel, wanted: Selection, now: int): Channel {
    ApplyChosen(ch, Effective(ch, wanted), now)
  }
}
