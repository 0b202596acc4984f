/** What detection and application promise together. */
module UpstreamTheorems {
  import opened Text
  import opened NameLists
  import opened UpstreamModel

  // ---------------------------------------------------------------------------------------
  // Model lists as text
  // ---------------------------------------------------------------------------------------

  /** A name read from a comma-separated list has no comma in it. */
  lemma NamesHaveNoCommas(models: string)
    ensures forall x :: x in Normalize(GetModels(models)) ==> ',' !in x
    ensures Normal(Normalize(GetModels(models)))
  {
    var parts := GetModels(models);
    NormalizeIsNormal(parts);
    if models != "" {
      SplitFree(TrimChar(models, ','), ',');
    }
    forall x | x in Normalize(parts) ensures ',' !in x {
      var m :| m in parts && TrimSpace(m) == x;
      TrimKeeps(m, IsSpace);
    }
  }

  lemma LocalHasNoCommas(ch: Channel)
    ensures forall x :: x in Local(ch) ==> ',' !in x
    ensures Normal(Local(ch))
  {
    NamesHaveNoCommas(ch.models);
  }

  /** Writing a list of names and reading it back: exact for names without commas, and only for them. */
  lemma ModelsRoundTrip(list: seq<string>)
    requires Normal(list)
    ensures Normalize(GetModels(Join(list, ','))) == list <==> Free(list, ',')
  {
    if Free(list, ',') {
      if list != [] {
        var text := Join(list, ',');
        var last := list[|list| - 1];
        assert list[0] in list && last in list;
        JoinEnds(list, ',');
        assert list[0][0] in list[0] && last[|last| - 1] in last;
        TrimTight(text, x => x == ',');
        SplitJoin(list, ',');
        assert TrimChar(text, ',') == text;
      }
      NormalizeNormal(list);
    } else {
      NamesHaveNoCommas(Join(list, ','));
      var i :| 0 <= i < |list| && ',' in list[i];
      assert list[i] in list;
    }
  }

  /** A part that is not blank survives the trimming of separators. */
  lemma {:induction false} TrimLeftKeepsPart(s: string, sep: char, p: string)
    requires p in Split(s, sep) && p != ""
    ensures p in Split(TrimLeft(s, x => x == sep), sep)
  {
    if s != "" && s[0] == sep {
      TrimLeftKeepsPart(s[1..], sep, p);
    }
  }

  lemma {:induction false} TrimRightKeepsPart(s: string, sep: char, p: string)
    requires p in Split(s, sep) && p != ""
    ensures p in Split(TrimRight(s, x => x == sep), sep)
    decreases |s|
  {
    if s != "" && s[|s| - 1] == sep {
      var rest := s[..|s| - 1];
      assert s == rest + [sep] + "";
      SplitConcat(rest, "", sep);
      TrimRightKeepsPart(rest, sep, p);
    }
  }

  lemma {:induction false} SplitJoinKeepsPart(list: seq<string>, sep: char, p: string)
    requires p in list && sep !in p
    ensures p in Split(Join(list, sep), sep)
  {
    if |list| == 1 {
      SplitWhole(p, sep);
    } else {
      SplitConcat(list[0], Join(list[1..], sep), sep);
      assert list == [list[0]] + list[1..];
      if p == list[0] {
        SplitWhole(p, sep);
      } else {
        SplitJoinKeepsPart(list[1..], sep, p);
      }
    }
  }

  /** A clean name without a comma is read back from a list, whatever the other names are. */
  lemma NameSurvives(list: seq<string>, x: string)
    requires x in list && Clean(x) && ',' !in x
    ensures x in Normalize(GetModels(Join(list, ',')))
  {
    var text := Join(list, ',');
    SplitJoinKeepsPart(list, ',', x);
    TrimLeftKeepsPart(text, ',', x);
    TrimRightKeepsPart(TrimLeft(text, c => c == ','), ',', x);
    NormalizeIsNormal(GetModels(text));
  }

  // ---------------------------------------------------------------------------------------
  // Detection
  // ---------------------------------------------------------------------------------------

  /** Pending additions, in terms of the test they are filtered by. */
  lemma PendingAddMissing(local: seq<string>, upstream: seq<string>, ignored: seq<string>, mapping: map<string, string>, matches: Matcher)
    ensures Normal(PendingAdd(local, upstream, ignored, mapping, matches))
    ensures forall x :: x in PendingAdd(local, upstream, ignored, mapping, matches) <==>
                        x in Normalize(upstream) && Missing(x, Normalize(local), mapping.Values, Normalize(ignored), matches)
  {
    var l, rules, targets := Normalize(local), Normalize(ignored), mapping.Values;
    var keep := (name: string) => Missing(name, l, targets, rules, matches);
    NormalizeIsNormal(upstream);
    FilterNormal(Normalize(upstream), keep);
    NormalizeNormal(Filter(Normalize(upstream), keep));
    assert PendingAdd(local, upstream, ignored, mapping, matches) == Filter(Normalize(upstream), keep);
  }

  /** What ignores a name: the name itself, unless it is a rule, or a rule that matches it. */
  lemma IgnoresExactly(rules: seq<string>, name: string, matches: Matcher)
    ensures Ignores(rules, name, matches) <==>
              || (name in rules && !HasPrefix(name, "regex:"))
              || exists p :: "regex:" + p in rules && matches(TrimSpace(p), name)
  {
    if rule :| rule in rules && Hits(rule, name, matches) {
      if HasPrefix(rule, "regex:") {
        assert "regex:" + rule[6..] == rule;
      }
    }
    if p :| "regex:" + p in rules && matches(TrimSpace(p), name) {
      assert ("regex:" + p)[6..] == p;
      assert Hits("regex:" + p, name, matches);
    }
    if name in rules && !HasPrefix(name, "regex:") {
      assert Hits(name, name, matches);
    }
  }

  /**
   Pending additions: exactly the upstream names that are not local, not the target of a redirect,
   not on the ignore list themselves, and not matched by a rule on it.
   */
  lemma PendingAddExact(local: seq<string>, upstream: seq<string>, ignored: seq<string>, mapping: map<string, string>, matches: Matcher, x: string)
    ensures x in PendingAdd(local, upstream, ignored, mapping, matches) <==>
              && x in Normalize(upstream) && x !in Normalize(local) && x !in mapping.Values
              && (x in Normalize(ignored) ==> HasPrefix(x, "regex:"))
              && !exists p :: "regex:" + p in Normalize(ignored) && matches(TrimSpace(p), x)
  {
    PendingAddMissing(local, upstream, ignored, mapping, matches);
    IgnoresExactly(Normalize(ignored), x, matches);
  }

  /** Pending removals: exactly the local names that are gone; never the source of a redirect. */
  lemma PendingRemoveExact(local: seq<string>, upstream: seq<string>, mapping: map<string, string>)
    ensures Normal(PendingRemove(local, upstream, mapping))
    ensures forall x :: x in PendingRemove(local, upstream, mapping) <==>
                        x in Normalize(local) && x !in mapping.Keys && x !in Normalize(upstream)
  {
    var u, sources := Normalize(upstream), mapping.Keys;
    var keep := (name: string) => Gone(name, u, sources);
    NormalizeIsNormal(local);
    FilterNormal(Normalize(local), keep);
    NormalizeNormal(Filter(Normalize(local), keep));
    assert PendingRemove(local, upstream, mapping) == Filter(Normalize(local), keep);
  }

  ghost predicate Disjoint(a: seq<string>, b: seq<string>) {
    forall x :: x in a ==> x !in b
  }

  /** What detection leaves pending is disjoint. */
  lemma DetectionIsDisjoint(ch: Channel, now: int, upstream: seq<string>, mapping: map<string, string>, matches: Matcher, auto: bool)
    ensures var ch' := CheckStep(ch, now, upstream, mapping, matches, auto);
            Disjoint(ch'.detected, ch'.removed) && Normal(ch'.detected) && Normal(ch'.removed)
  {
    PendingAddMissing(GetModels(ch.models), upstream, ch.ignored, mapping, matches);
    PendingRemoveExact(GetModels(ch.models), upstream, mapping);
  }

  /** Automatic sync counts the pending additions, and appends exactly them, in order, when none has a comma. */
  lemma AutoSyncAddsPending(ch: Channel, now: int, upstream: seq<string>, mapping: map<string, string>, matches: Matcher)
    requires ch.autoSync
    ensures var add := PendingAdd(GetModels(ch.models), upstream, ch.ignored, mapping, matches);
            && AutoAdded(ch, upstream, mapping, matches, true) == |add|
            && (Local(CheckStep(ch, now, upstream, mapping, matches, true)) == Local(ch) + add <==> Free(add, ','))
  {
    var add := PendingAdd(GetModels(ch.models), upstream, ch.ignored, mapping, matches);
    PendingAddMissing(GetModels(ch.models), upstream, ch.ignored, mapping, matches);
    LocalHasNoCommas(ch);
    NormalizeNormal(add);
    NormalizeNormal(Local(ch));
    MinusNothing(add, Local(ch));
    assert Merge(Local(ch), add) == Local(ch) + add;
    if add == [] {
      assert Local(ch) + add == Local(ch);
    } else {
      MergeIsUnion(Local(ch), add);
      ModelsRoundTrip(Local(ch) + add);
      FreeConcat(Local(ch), add, ',');
    }
  }

  lemma FreeConcat(a: seq<string>, b: seq<string>, sep: char)
    requires forall x :: x in a ==> sep !in x
    ensures Free(a + b, sep) <==> Free(b, sep)
  {
    assert forall i :: 0 <= i < |a| ==> (a + b)[i] == a[i] && a[i] in a;
    assert forall i :: 0 <= i < |b| ==> (a + b)[|a| + i] == b[i];
  }

  lemma HasMember(list: seq<string>)
    ensures list == [] || exists x :: x in list
  {
    if list != [] {
      assert list[0] in list;
    }
  }

  lemma {:induction false} MinusNothing(list: seq<string>, other: seq<string>)
    requires Disjoint(list, other)
    ensures Minus(list, other) == list
  {
    if list != [] {
      assert list[0] in list;
      MinusNothing(list[1..], other);
    }
  }

  // ---------------------------------------------------------------------------------------
  // Application
  // ---------------------------------------------------------------------------------------

  lemma EffectiveExact(ch: Channel, wanted: Selection)
    ensures var s := Effective(ch, wanted);
            && Normal(s.add) && Normal(s.ignore) && Normal(s.remove)
            && (forall x :: x in s.add <==> x in Normalize(wanted.add) && x in Normalize(ch.detected))
            && (forall x :: x in s.ignore <==> x in Normalize(wanted.ignore) && x in Normalize(ch.detected))
            && (forall x :: x in s.remove <==> x in Normalize(wanted.remove) && x in Normalize(ch.removed) && x !in s.add)
  {
    var pendingAdd, pendingRemove := Normalize(ch.detected), Normalize(ch.removed);
    NormalizeIsNormal(ch.detected);
    NormalizeIsNormal(ch.removed);
    NormalizeNormal(pendingAdd);
    NormalizeNormal(pendingRemove);
    IntersectIsIntersection(wanted.add, pendingAdd);
    IntersectIsIntersection(wanted.ignore, pendingAdd);
    IntersectIsIntersection(wanted.remove, pendingRemove);
    var add := Intersect(wanted.add, pendingAdd);
    NormalizeNormal(add);
    NormalizeNormal(Intersect(wanted.remove, pendingRemove));
    SubtractIsDifference(Intersect(wanted.remove, pendingRemove), add);
  }

  /** Additions win: what is added is there, what is removed is not unless it is added, and the rest stays. */
  lemma ApplySelectedExact(origin: seq<string>, add: seq<string>, remove: seq<string>)
    ensures Normal(ApplySelected(origin, add, remove))
    ensures forall x :: x in ApplySelected(origin, add, remove) <==>
              x in Normalize(add) || (x in Normalize(origin) && x !in Normalize(remove))
  {
    var added, removed := Normalize(add), Normalize(remove);
    NormalizeIsNormal(add);
    NormalizeIsNormal(remove);
    NormalizeNormal(added);
    NormalizeNormal(removed);
    MergeIsUnion(origin, added);
    SubtractIsDifference(removed, added);
    NormalizeNormal(Merge(origin, added));
    NormalizeNormal(Subtract(removed, added));
    SubtractIsDifference(Merge(origin, added), Subtract(removed, added));
  }

  /** The lists an application leaves behind. */
  lemma AppliedLists(ch: Channel, wanted: Selection, now: int)
    ensures var s, ch' := Effective(ch, wanted), ApplyStep(ch, wanted, now);
            && Normal(ch'.ignored) && Normal(ch'.detected) && Normal(ch'.removed)
            && (forall x :: x in ch'.ignored <==> (x in Normalize(ch.ignored) || x in s.ignore) && x !in s.add)
            && (forall x :: x in ch'.detected <==> x in Normalize(ch.detected) && x !in s.add && x !in s.ignore)
            && (forall x :: x in ch'.removed <==> x in Normalize(ch.removed) && x !in s.remove)
  {
    var s := Effective(ch, wanted);
    EffectiveExact(ch, wanted);
    NormalizeNormal(s.add);
    NormalizeNormal(s.ignore);
    NormalizeNormal(s.remove);
    IgnoredExact(ch.ignored, s.ignore, s.add);
    NormalizeIsNormal(ch.detected);
    NormalizeIsNormal(ch.removed);
    NormalizeNormal(Normalize(ch.detected));
    NormalizeNormal(Normalize(ch.removed));
    SubtractIsDifference(Normalize(ch.removed), s.remove);
    SubtractIsDifference(Normalize(ch.detected), s.add + s.ignore);
    NormalizeJoined(s.add, s.ignore);
  }

  lemma IgnoredExact(ignored: seq<string>, ignore: seq<string>, add: seq<string>)
    requires Normal(ignore) && Normal(add)
    ensures var after := if add != [] then Subtract(Merge(ignored, ignore), add) else Merge(ignored, ignore);
            Normal(after) && forall x :: x in after <==> (x in Normalize(ignored) || x in ignore) && x !in add
  {
    NormalizeNormal(ignore);
    NormalizeNormal(add);
    MergeIsUnion(ignored, ignore);
    NormalizeNormal(Merge(ignored, ignore));
    SubtractIsDifference(Merge(ignored, ignore), add);
  }

  lemma NormalizeJoined(a: seq<string>, b: seq<string>)
    requires Normal(a) && Normal(b)
    ensures forall x :: x in Normalize(a + b) <==> x in a || x in b
  {
    NormalizeIsNormal(a + b);
    forall x | x in a || x in b ensures x in Normalize(a + b) {
      assert x in a + b && TrimSpace(x) == x;
    }
    forall x | x in Normalize(a + b) ensures x in a || x in b {
      var m :| m in a + b && TrimSpace(m) == x;
      assert m in a || m in b;
    }
  }

  /**
   Every pending addition is added, ignored or still pending, and only one of these; one
   selected for both is added and ends up not ignored.
   */
  lemma PendingIsSplit(ch: Channel, wanted: Selection, now: int, x: string)
    requires x in Normalize(ch.detected)
    ensures var s, ch' := Effective(ch, wanted), ApplyStep(ch, wanted, now);
            var added, ignored, pending := x in s.add, x in s.ignore && x !in s.add, x in ch'.detected;
            && (added || ignored || pending) && !(added && pending) && !(ignored && pending)
            && (added ==> x !in ch'.ignored && x in ApplySelected(Local(ch), s.add, s.remove))
            && (ignored ==> x in ch'.ignored)
  {
    EffectiveExact(ch, wanted);
    AppliedLists(ch, wanted, now);
    ApplySelectedExact(Local(ch), Effective(ch, wanted).add, Effective(ch, wanted).remove);
    NormalizeNormal(Effective(ch, wanted).add);
  }

  /** Disjoint pending lists stay disjoint through every application. */
  lemma DisjointStays(ch: Channel, wanted: Selection, now: int)
    requires Disjoint(Normalize(ch.detected), Normalize(ch.removed))
    ensures Disjoint(ApplyStep(ch, wanted, now).detected, ApplyStep(ch, wanted, now).removed)
  {
    AppliedLists(ch, wanted, now);
  }

  // ---------------------------------------------------------------------------------------
  // Applying twice
  // ---------------------------------------------------------------------------------------

  /** A name that is pending, and selected, for addition and for removal at once. */
  ghost predicate Contested(ch: Channel, wanted: Selection, x: string) {
    && x in Normalize(wanted.add) && x in Normalize(ch.detected)
    && x in Normalize(wanted.remove) && x in Normalize(ch.removed)
  }

  lemma {:induction false} MinusNone(list: seq<string>)
    ensures Minus(list, []) == list
  {
    if list != [] {
      MinusNone(list[1..]);
    }
  }

  /** Selecting nothing that is pending changes nothing but the time, once the lists are normal. */
  lemma EmptySelection(ch: Channel, wanted: Selection, now: int)
    requires Normal(ch.ignored) && Normal(ch.detected) && Normal(ch.removed)
    requires Effective(ch, wanted) == Selection([], [], [])
    ensures ApplyStep(ch, wanted, now) == ch.(lastCheck := now)
  {
    LocalHasNoCommas(ch);
    NormalizeNormal(Local(ch));
    NormalizeNormal(ch.ignored);
    NormalizeNormal(ch.detected);
    NormalizeNormal(ch.removed);
    assert Normalize([]) == [];
    MinusNone(Local(ch));
    MinusNone(ch.detected);
    MinusNone(ch.removed);
    assert Minus([], Local(ch)) == [] && Minus([], ch.ignored) == [];
    assert Local(ch) + [] == Local(ch) && ch.ignored + [] == ch.ignored;
    assert [] + [] == Effective(ch, wanted).add + Effective(ch, wanted).ignore;
  }

  /**
   Applying the same selection a second time changes nothing exactly when no name is
   contested; the second application would carry out the removal that lost the first time.
   */
  lemma ApplyTwice(ch: Channel, wanted: Selection, now: int)
    ensures var once := ApplyStep(ch, wanted, now);
            ApplyStep(once, wanted, now) == once <==> forall x :: !Contested(ch, wanted, x)
  {
    var once := ApplyStep(ch, wanted, now);
    var s, s' := Effective(ch, wanted), Effective(once, wanted);
    EffectiveExact(ch, wanted);
    EffectiveExact(once, wanted);
    AppliedLists(ch, wanted, now);
    AppliedLists(once, wanted, now);
    NormalizeNormal(once.detected);
    NormalizeNormal(once.removed);
    HasMember(s'.add);
    HasMember(s'.ignore);
    if x :| Contested(ch, wanted, x) {
      assert x in once.removed && x in s'.remove;
    } else {
      HasMember(s'.remove);
      forall x | x in s'.remove ensures Contested(ch, wanted, x) {}
      EmptySelection(once, wanted, now);
    }
  }

  /** With disjoint pending lists, as detection leaves them, an application is idempotent. */
  lemma ApplyIsIdempotent(ch: Channel, wanted: Selection, now: int)
    requires Disjoint(Normalize(ch.detected), Normalize(ch.removed))
    ensures var once := ApplyStep(ch, wanted, now); ApplyStep(once, wanted, now) == once
  {
    ApplyTwice(ch, wanted, now);
  }

  // ---------------------------------------------------------------------------------------
  // Convergence
  // ---------------------------------------------------------------------------------------

  /** Detect, then apply everything that is pending. */
  function Synced(ch: Channel, now: int, upstream: seq<string>, mapping: map<string, string>, matches: Matcher): Channel {
    var checked := CheckStep(ch, now, upstream, mapping, matches, false);
    ApplyStep(checked, Selection(checked.detected, [], checked.removed), now)
  }

  /** Detection finds nothing to do. */
  predicate Settled(ch: Channel, upstream: seq<string>, mapping: map<string, string>, matches: Matcher) {
    && PendingAdd(GetModels(ch.models), upstream, ch.ignored, mapping, matches) == []
    && PendingRemove(GetModels(ch.models), upstream, mapping) == []
  }

  /**
   An uncovered upstream name is ignored only by rules that are themselves the names of
   models about to be added, and adding a model takes its name off the ignore list.
   */
  ghost predicate LosesItsRules(ch: Channel, upstream: seq<string>, mapping: map<string, string>, matches: Matcher, x: string) {
    var add := PendingAdd(GetModels(ch.models), upstream, ch.ignored, mapping, matches);
    && x in Normalize(upstream) && x !in Local(ch) && x !in mapping.Values
    && Ignores(Normalize(ch.ignored), x, matches)
    && forall rule :: rule in Normalize(ch.ignored) && Hits(rule, x, matches) ==> rule in add
  }

  /** What applying everything comes down to. */
  lemma SyncedSelection(ch: Channel, now: int, upstream: seq<string>, mapping: map<string, string>, matches: Matcher)
    ensures var checked := CheckStep(ch, now, upstream, mapping, matches, false);
            var s := Effective(checked, Selection(checked.detected, [], checked.removed));
            && (forall x :: x in s.add <==> x in checked.detected) && Normal(s.add)
            && (forall x :: x in s.remove <==> x in checked.removed) && Normal(s.remove)
            && s.ignore == []
  {
    var checked := CheckStep(ch, now, upstream, mapping, matches, false);
    var wanted := Selection(checked.detected, [], checked.removed);
    DetectionIsDisjoint(ch, now, upstream, mapping, matches, false);
    EffectiveExact(checked, wanted);
    NormalizeNormal(checked.detected);
    NormalizeNormal(checked.removed);
    assert Normalize([]) == [];
    var ignore := Effective(checked, wanted).ignore;
    HasMember(ignore);
  }

  /** The channel after a sync: its ignore list, and its models as a list. */
  lemma SyncedChannel(ch: Channel, now: int, upstream: seq<string>, mapping: map<string, string>, matches: Matcher)
      returns (next: seq<string>)
    ensures var add, remove := PendingAdd(GetModels(ch.models), upstream, ch.ignored, mapping, matches),
                               PendingRemove(GetModels(ch.models), upstream, mapping);
            var ch' := Synced(ch, now, upstream, mapping, matches);
            && Normal(next) && (forall x :: x in next <==> x in add || (x in Local(ch) && x !in remove))
            && ch'.models == (if next != Local(ch) then Join(next, ',') else ch.models)
            && Normal(ch'.ignored) && (forall x :: x in ch'.ignored <==> x in Normalize(ch.ignored) && x !in add)
  {
    var checked := CheckStep(ch, now, upstream, mapping, matches, false);
    var wanted := Selection(checked.detected, [], checked.removed);
    var s := Effective(checked, wanted);
    SyncedSelection(ch, now, upstream, mapping, matches);
    AppliedLists(checked, wanted, now);
    LocalHasNoCommas(ch);
    ApplySelectedExact(Local(ch), s.add, s.remove);
    NormalizeNormal(Local(ch));
    NormalizeNormal(s.add);
    NormalizeNormal(s.remove);
    next := ApplySelected(Local(ch), s.add, s.remove);
  }

  /** For names without commas, the channel's list is exactly what was meant to be written. */
  lemma SyncedLocal(ch: Channel, now: int, upstream: seq<string>, mapping: map<string, string>, matches: Matcher)
    requires Free(PendingAdd(GetModels(ch.models), upstream, ch.ignored, mapping, matches), ',')
    ensures var add, remove := PendingAdd(GetModels(ch.models), upstream, ch.ignored, mapping, matches),
                               PendingRemove(GetModels(ch.models), upstream, mapping);
            forall x :: x in Local(Synced(ch, now, upstream, mapping, matches)) <==> x in add || (x in Local(ch) && x !in remove)
  {
    var add := PendingAdd(GetModels(ch.models), upstream, ch.ignored, mapping, matches);
    var next := SyncedChannel(ch, now, upstream, mapping, matches);
    LocalHasNoCommas(ch);
    forall i | 0 <= i < |next| ensures ',' !in next[i] {
      assert next[i] in next;
    }
    ModelsRoundTrip(next);
  }

  /** The sources of redirects survive a sync, whatever else is in the list. */
  lemma RedirectSourcesStay(ch: Channel, now: int, upstream: seq<string>, mapping: map<string, string>, matches: Matcher, x: string)
    requires x in Local(ch) && x in mapping.Keys
    ensures x in Local(Synced(ch, now, upstream, mapping, matches))
  {
    var next := SyncedChannel(ch, now, upstream, mapping, matches);
    PendingRemoveExact(GetModels(ch.models), upstream, mapping);
    LocalHasNoCommas(ch);
    NameSurvives(next, x);
  }

  /** A pending name with a comma is torn apart in the list, so it is found missing again. */
  lemma CommaNeverSettles(ch: Channel, now: int, upstream: seq<string>, mapping: map<string, string>, matches: Matcher, x: string)
    requires x in PendingAdd(GetModels(ch.models), upstream, ch.ignored, mapping, matches) && ',' in x
    ensures !Settled(Synced(ch, now, upstream, mapping, matches), upstream, mapping, matches)
  {
    var ch' := Synced(ch, now, upstream, mapping, matches);
    var next := SyncedChannel(ch, now, upstream, mapping, matches);
    PendingAddMissing(GetModels(ch.models), upstream, ch.ignored, mapping, matches);
    PendingAddMissing(GetModels(ch'.models), upstream, ch'.ignored, mapping, matches);
    LocalHasNoCommas(ch');
    NormalizeNormal(ch'.ignored);
    assert x in PendingAdd(GetModels(ch'.models), upstream, ch'.ignored, mapping, matches);
  }

  /** After a sync without commas, the names found missing are exactly those that lost their rules. */
  lemma FoundAgain(ch: Channel, now: int, upstream: seq<string>, mapping: map<string, string>, matches: Matcher, x: string)
    requires Free(PendingAdd(GetModels(ch.models), upstream, ch.ignored, mapping, matches), ',')
    ensures var ch' := Synced(ch, now, upstream, mapping, matches);
            && (x in PendingAdd(GetModels(ch'.models), upstream, ch'.ignored, mapping, matches)
                <==> LosesItsRules(ch, upstream, mapping, matches, x))
            && x !in PendingRemove(GetModels(ch'.models), upstream, mapping)
  {
    var ch' := Synced(ch, now, upstream, mapping, matches);
    var next := SyncedChannel(ch, now, upstream, mapping, matches);
    SyncedLocal(ch, now, upstream, mapping, matches);
    PendingAddMissing(GetModels(ch.models), upstream, ch.ignored, mapping, matches);
    PendingAddMissing(GetModels(ch'.models), upstream, ch'.ignored, mapping, matches);
    PendingRemoveExact(GetModels(ch.models), upstream, mapping);
    PendingRemoveExact(GetModels(ch'.models), upstream, mapping);
    NormalizeNormal(ch'.ignored);
  }

  /**
   A sync settles the channel exactly when no pending name contains a comma and no ignored
   upstream name loses its rules to the models being added.
   */
  lemma SyncConverges(ch: Channel, now: int, upstream: seq<string>, mapping: map<string, string>, matches: Matcher)
    ensures var add := PendingAdd(GetModels(ch.models), upstream, ch.ignored, mapping, matches);
            Settled(Synced(ch, now, upstream, mapping, matches), upstream, mapping, matches)
            <==> Free(add, ',') && forall x :: !LosesItsRules(ch, upstream, mapping, matches, x)
  {
    var add := PendingAdd(GetModels(ch.models), upstream, ch.ignored, mapping, matches);
    var ch' := Synced(ch, now, upstream, mapping, matches);
    if i :| 0 <= i < |add| && ',' in add[i] {
      CommaNeverSettles(ch, now, upstream, mapping, matches, add[i]);
    } else {
      var add', remove' := PendingAdd(GetModels(ch'.models), upstream, ch'.ignored, mapping, matches),
                           PendingRemove(GetModels(ch'.models), upstream, mapping);
      forall x ensures (x in add' <==> LosesItsRules(ch, upstream, mapping, matches, x)) && x !in remove' {
        FoundAgain(ch, now, upstream, mapping, matches, x);
      }
      HasMember(remove');
      HasMember(add');
    }
  }

  /** In particular for names without commas when no upstream name looks like a rule. */
  lemma PlainNamesConverge(ch: Channel, now: int, upstream: seq<string>, mapping: map<string, string>, matches: Matcher)
    requires forall x :: x in Normalize(upstream) ==> ',' !in x && !HasPrefix(x, REGEX)
    ensures Settled(Synced(ch, now, upstream, mapping, matches), upstream, mapping, matches)
  {
    var add := PendingAdd(GetModels(ch.models), upstream, ch.ignored, mapping, matches);
    PendingAddMissing(GetModels(ch.models), upstream, ch.ignored, mapping, matches);
    forall i | 0 <= i < |add| ensures ',' !in add[i] {
      assert add[i] in add;
    }
    forall x ensures !LosesItsRules(ch, upstream, mapping, matches, x) {
      if Ignores(Normalize(ch.ignored), x, matches) {
        var rule :| rule in Normalize(ch.ignored) && Hits(rule, x, matches);
        assert rule in add ==> rule == x && Missing(x, Local(ch), mapping.Values, Normalize(ch.ignored), matches);
      }
    }
    SyncConverges(ch, now, upstream, mapping, matches);
  }

  // ---------------------------------------------------------------------------------------
  // Two channels that never settle
  // ---------------------------------------------------------------------------------------

  lemma CommaExample(matches: Matcher)
    ensures !Settled(Synced(Channel("", [], [], [], 0, false), 0, ["a,b"], map[], matches), ["a,b"], map[], matches)
  {
    var ch, upstream := Channel("", [], [], [], 0, false), ["a,b"];
    PendingAddMissing(GetModels(ch.models), upstream, ch.ignored, map[], matches);
    NormalizeNames(upstream);
    assert upstream[0] in Normalize(upstream) && upstream[0][1] == ',';
    CommaNeverSettles(ch, 0, upstream, map[], matches, "a,b");
  }

  /** A matcher for which "^a$" matches "a" and nothing else matches anything. */
  function OnlyA(): Matcher {
    (pattern, name) => pattern == "^a$" && name == "a"
  }

  /** In a channel that ignores "regex:^a$", the upstream names "a" and "regex:^a$": the second is to be added. */
  lemma RuleLost()
    ensures LosesItsRules(Channel("", ["regex:^a$"], [], [], 0, false), ["a", "regex:^a$"], map[], OnlyA(), "a")
  {
    var rule := "regex:^a$";
    var ch, upstream := Channel("", [rule], [], [], 0, false), ["a", rule];
    PendingAddMissing(GetModels(ch.models), upstream, ch.ignored, map[], OnlyA());
    NormalizeNames(upstream);
    NormalizeNames(ch.ignored);
    assert upstream[0] in Normalize(upstream) && upstream[1] in Normalize(upstream) && ch.ignored[0] in Normalize(ch.ignored);
    assert rule[|REGEX|..] == "^a$" && HasPrefix(rule, REGEX);
    TrimTight("^a$", IsSpace);
    assert Hits(rule, "a", OnlyA());
    assert forall r :: r in Normalize(ch.ignored) ==> r == rule;
    assert Missing(rule, Local(ch), {}, Normalize(ch.ignored), OnlyA());
    var none: map<string, string> := map[];
    assert none.Values == {};
  }

  /** Adding the model whose name is a rule takes the rule away, and "a" is found missing. */
  lemma LostRuleExample()
    ensures var upstream := ["a", "regex:^a$"];
            !Settled(Synced(Channel("", ["regex:^a$"], [], [], 0, false), 0, upstream, map[], OnlyA()), upstream, map[], OnlyA())
  {
    RuleLost();
    SyncConverges(Channel("", ["regex:^a$"], [], [], 0, false), 0, ["a", "regex:^a$"], map[], OnlyA());
  }

  /** Names with nothing to trim are their own normal form, as members. */
  lemma NormalizeNames(names: seq<string>)
    requires forall i :: 0 <= i < |names| ==> names[i] != "" && Tight(names[i], IsSpace)
    ensures forall x :: x in Normalize(names) <==> x in names
  {
    NormalizeIsNormal(names);
    forall i | 0 <= i < |names| ensures TrimSpace(names[i]) == names[i] {
      TrimTight(names[i], IsSpace);
    }
  }
}
