/** The comparison of prices as it runs: nested loops that fill the tables and then prune them. */
module PricingDiff {
  import opened MapFacts
  import opened PricingModel

  method CollectTable(data: Table, seen: set<string>) returns (models: set<string>)
    ensures models == seen + TableModels(data, FIELDS)
  {
    models := seen;
    var i := 0;
    while i < |FIELDS|
      invariant 0 <= i <= |FIELDS|
      invariant models + TableModels(data, FIELDS[i..]) == seen + TableModels(data, FIELDS)
    {
      assert FIELDS[i..][1..] == FIELDS[i + 1..];
      models := models + Models(data, FIELDS[i]).Keys;
      i := i + 1;
    }
  }

  method CollectModels(local: Table, ups: seq<Upstream>) returns (models: set<string>)
    ensures models == AllModels(local, ups)
  {
    models := CollectTable(local, {});
    var i := 0;
    while i < |ups|
      invariant 0 <= i <= |ups|
      invariant models == AllModels(local, ups[..i])
    {
      models := CollectTable(ups[i].data, models);
      assert ups[..i + 1][..i] == ups[..i];
      i := i + 1;
    }
    assert ups[..|ups|] == ups;
  }

  /** Every model is trusted at first; the placeholder prices are looked for where both ratios are reported at all. */
  method JudgeUpstream(u: Upstream, models: set<string>) returns (trusted: map<string, bool>)
    ensures trusted.Keys == models
    ensures forall m :: m in models ==> trusted[m] == !Placeholder(u.data, m)
  {
    var ratios, completions := Models(u.data, "model_ratio"), Models(u.data, "completion_ratio");
    trusted := map[];
    var rest := models;
    while rest != {}
      invariant rest <= models && trusted.Keys == models - rest
      invariant forall m :: m in trusted ==> trusted[m] == !Placeholder(u.data, m)
    {
      var m :| m in rest;
      rest := rest - {m};
      trusted := trusted[m := true];
      if |ratios| > 0 && |completions| > 0 && m in ratios && m in completions {
        var ratio, completion := AsFloat(ratios[m]), AsFloat(completions[m]);
        if ratio.Some? && completion.Some? && NearlyEqual(ratio.value, 37.5) && NearlyEqual(completion.value, 1.0) {
          trusted := trusted[m := false];
        }
      }
    }
  }

  /** One model's confidences, read off the table. */
  ghost predicate TrustAt(confidence: map<string, map<string, bool>>, ups: seq<Upstream>, m: string) {
    forall name :: name in Trust(ups, m) ==>
      name in confidence && m in confidence[name] && confidence[name][m] == Trust(ups, m)[name]
  }

  lemma TrustStep(before: map<string, map<string, bool>>, ups: seq<Upstream>, i: nat, trusted: map<string, bool>, m: string)
    requires i < |ups| && TrustAt(before, ups[..i], m)
    requires m in trusted && trusted[m] == !Placeholder(ups[i].data, m)
    ensures TrustAt(before[ups[i].name := trusted], ups[..i + 1], m)
  {
    assert ups[..i + 1][..i] == ups[..i];
  }

  method JudgeAll(ups: seq<Upstream>, models: set<string>) returns (confidence: map<string, map<string, bool>>)
    ensures forall m :: m in models ==> TrustAt(confidence, ups, m)
  {
    confidence := map[];
    var i := 0;
    while i < |ups|
      invariant 0 <= i <= |ups|
      invariant forall m :: m in models ==> TrustAt(confidence, ups[..i], m)
    {
      var trusted := JudgeUpstream(ups[i], models);
      forall m | m in models ensures TrustAt(confidence[ups[i].name := trusted], ups[..i + 1], m) {
        TrustStep(confidence, ups, i, trusted, m);
      }
      confidence := confidence[ups[i].name := trusted];
      i := i + 1;
    }
    assert ups[..|ups|] == ups;
  }

  lemma {:induction false} TrustName(ups: seq<Upstream>, i: nat, model: string)
    requires i < |ups|
    ensures ups[i].name in Trust(ups, model)
    decreases |ups|
  {
    if i < |ups| - 1 {
      TrustName(ups[..|ups| - 1], i, model);
    }
  }

  lemma ColumnStep(current: Value, ups: seq<Upstream>, i: nat, model: string, field: string)
    requires i < |ups|
    ensures Column(current, ups[..i + 1], model, field) ==
            Column(current, ups[..i], model, field)[ups[i].name := Cell(current, Reported(ups[i].data, model, field))]
  {
    assert ups[..i + 1][..i] == ups[..i];
  }

  /** What the flags say of the upstreams seen so far; without a local value only the reports count. */
  ghost predicate Tallied(hasUpstream: bool, hasDifference: bool, current: Value, ups: seq<Upstream>, model: string, field: string) {
    && hasUpstream == Reporter(ups, model, field)
    && (current != Null ==> hasDifference == Differer(current, ups, model, field))
  }

  lemma TallyStep(hasUpstream: bool, hasDifference: bool, reports: bool, differs: bool,
                  current: Value, ups: seq<Upstream>, i: nat, model: string, field: string)
    requires i < |ups| && Tallied(hasUpstream, hasDifference, current, ups[..i], model, field)
    requires reports == Reported(ups[i].data, model, field).Some?
    requires current != Null ==> differs == Differs(current, Reported(ups[i].data, model, field))
    ensures Tallied(hasUpstream || reports, hasDifference || differs, current, ups[..i + 1], model, field)
  {
    var before, after := ups[..i], ups[..i + 1];
    assert forall j :: 0 <= j < i ==> after[j] == before[j];
    assert after[i] == ups[i];
  }

  /** The confidences of some names, as the whole table has them. */
  ghost predicate PartOf(confidences: map<string, bool>, names: set<string>, whole: map<string, bool>) {
    confidences.Keys == names && forall name :: name in confidences ==> name in whole && confidences[name] == whole[name]
  }

  lemma TrustKeys(ups: seq<Upstream>, i: nat, model: string)
    requires i < |ups|
    ensures Trust(ups[..i + 1], model).Keys == Trust(ups[..i], model).Keys + {ups[i].name}
  {
    assert ups[..i + 1][..i] == ups[..i];
  }

  /** What the inner loop has gathered from the first `i` upstreams. */
  datatype Gathered = Gathered(upstreams: map<string, Value>, confidences: map<string, bool>, hasUpstream: bool, hasDifference: bool)

  ghost predicate GatheredOk(g: Gathered, current: Value, ups: seq<Upstream>, i: nat, model: string, field: string)
    requires i <= |ups|
  {
    && g.upstreams == Column(current, ups[..i], model, field)
    && PartOf(g.confidences, Trust(ups[..i], model).Keys, Trust(ups, model))
    && Tallied(g.hasUpstream, g.hasDifference, current, ups[..i], model, field)
  }

  lemma PartStep(confidences: map<string, bool>, ups: seq<Upstream>, i: nat, model: string, confidence: map<string, map<string, bool>>)
    requires i < |ups| && TrustAt(confidence, ups, model)
    requires PartOf(confidences, Trust(ups[..i], model).Keys, Trust(ups, model))
    ensures ups[i].name in confidence && model in confidence[ups[i].name]
    ensures PartOf(confidences[ups[i].name := confidence[ups[i].name][model]], Trust(ups[..i + 1], model).Keys, Trust(ups, model))
  {
    TrustName(ups, i, model);
    TrustKeys(ups, i, model);
    var whole, names := Trust(ups, model), Trust(ups[..i], model).Keys;
    PartGrows(confidences, names, whole, ups[i].name);
  }

  lemma PartGrows(confidences: map<string, bool>, names: set<string>, whole: map<string, bool>, name: string)
    requires PartOf(confidences, names, whole) && name in whole
    ensures PartOf(confidences[name := whole[name]], names + {name}, whole)
  {}

  lemma GatheredStart(current: Value, ups: seq<Upstream>, model: string, field: string)
    ensures GatheredOk(Gathered(map[], map[], false, false), current, ups, 0, model, field)
  {}

  lemma GatheredEnd(g: Gathered, current: Value, ups: seq<Upstream>, model: string, field: string)
    requires GatheredOk(g, current, ups, |ups|, model, field)
    ensures g.upstreams == Column(current, ups, model, field) && g.confidences == Trust(ups, model)
    ensures Tallied(g.hasUpstream, g.hasDifference, current, ups, model, field)
  {
    assert ups[..|ups|] == ups;
  }

  /** One round of the inner loop. */
  method GatherNext(g: Gathered, localValue: Value, ups: seq<Upstream>, i: nat, confidence: map<string, map<string, bool>>,
                    model: string, field: string) returns (next: Gathered)
    requires i < |ups| && TrustAt(confidence, ups, model) && GatheredOk(g, localValue, ups, i, model, field)
    ensures GatheredOk(next, localValue, ups, i + 1, model, field)
  {
    var u := ups[i];
    var value, reports, differs := CompareCell(localValue, u.data, model, field);
    ColumnStep(localValue, ups, i, model, field);
    TallyStep(g.hasUpstream, g.hasDifference, reports, differs, localValue, ups, i, model, field);
    PartStep(g.confidences, ups, i, model, confidence);
    next := Gathered(g.upstreams[u.name := value], g.confidences[u.name := confidence[u.name][model]],
                     g.hasUpstream || reports, g.hasDifference || differs);
  }

  /** One model and field: each upstream's cell, and whether the item goes into the first pass. */
  method CompareItem(local: Table, ups: seq<Upstream>, confidence: map<string, map<string, bool>>, model: string, field: string)
    returns (item: Item, shown: bool)
    requires TrustAt(confidence, ups, model)
    ensures item == FirstItem(local, ups, model, field)
    ensures shown == Included(local, ups, model, field)
  {
    var localValue := Null;
    if model in Models(local, field) {
      localValue := NormalizeValue(field, Models(local, field)[model]);
    }
    var g := Gathered(map[], map[], false, false);
    GatheredStart(localValue, ups, model, field);
    for i := 0 to |ups|
      invariant GatheredOk(g, localValue, ups, i, model, field)
    {
      g := GatherNext(g, localValue, ups, i, confidence, model, field);
    }
    GatheredEnd(g, localValue, ups, model, field);
    item := Item(localValue, g.upstreams, g.confidences);
    shown := if localValue != Null then g.hasDifference else g.hasUpstream;
  }

  method CompareCell(localValue: Value, data: Table, model: string, field: string) returns (value: Value, reports: bool, differs: bool)
    ensures value == Cell(localValue, Reported(data, model, field))
    ensures reports == Reported(data, model, field).Some?
    ensures differs ==> Differs(localValue, Reported(data, model, field))
    ensures localValue != Null ==> differs == Differs(localValue, Reported(data, model, field))
  {
    value, reports, differs := Null, false, false;
    if model in Models(data, field) {
      value := NormalizeValue(field, Models(data, field)[model]);
      reports := true;
      if localValue != Null && !ValuesEqual(localValue, value) {
        differs := true;
      } else if ValuesEqual(localValue, value) {
        value := SAME;
      }
    }
    if value == Null && localValue == Null {
      value := SAME;
    }
    if localValue == Null && value != Null && value != SAME {
      differs := true;
    }
  }

  // ---------------------------------------------------------------------------------------
  // The first pass
  // ---------------------------------------------------------------------------------------

  lemma RowStep(local: Table, ups: seq<Upstream>, model: string, fields: seq<string>, field: string)
    ensures RowOver(local, ups, model, fields + [field]) ==
            if Included(local, ups, model, field) then RowOver(local, ups, model, fields)[field := FirstItem(local, ups, model, field)]
            else RowOver(local, ups, model, fields)
  {}

  method CompareModel(local: Table, ups: seq<Upstream>, confidence: map<string, map<string, bool>>, model: string,
                      fields: seq<string>) returns (row: Row)
    requires TrustAt(confidence, ups, model)
    ensures row == RowOver(local, ups, model, fields)
  {
    row := map[];
    var i := 0;
    while i < |fields|
      invariant 0 <= i <= |fields|
      invariant row == RowOver(local, ups, model, fields[..i])
    {
      var item, shown := CompareItem(local, ups, confidence, model, fields[i]);
      assert fields[..i + 1] == fields[..i] + [fields[i]];
      RowStep(local, ups, model, fields[..i], fields[i]);
      if shown {
        row := row[fields[i] := item];
      }
      i := i + 1;
    }
    assert fields[..|fields|] == fields;
  }

  lemma PassStep(local: Table, ups: seq<Upstream>, models: set<string>, m: string)
    requires m !in models
    ensures PassOver(local, ups, models + {m}) ==
            if FirstRow(local, ups, m) != map[] then PassOver(local, ups, models)[m := FirstRow(local, ups, m)]
            else PassOver(local, ups, models)
  {
    var before, after := PassOver(local, ups, models), PassOver(local, ups, models + {m});
    var row := FirstRow(local, ups, m);
    if row != map[] {
      MapUpdated(before, after, m, row);
    }
  }

  method Compare(local: Table, ups: seq<Upstream>) returns (d: Differences)
    ensures d == FirstPass(local, ups)
  {
    var models := CollectModels(local, ups);
    var confidence := JudgeAll(ups, models);
    d := map[];
    var rest := models;
    while rest != {}
      invariant rest <= models
      invariant d == PassOver(local, ups, models - rest)
    {
      var m :| m in rest;
      assert models - (rest - {m}) == (models - rest) + {m};
      PassStep(local, ups, models - rest, m);
      rest := rest - {m};
      var row := CompareModel(local, ups, confidence, m, FIELDS);
      if row != map[] {
        d := d[m := row];
      }
    }
    assert models - rest == models;
  }

  // ---------------------------------------------------------------------------------------
  // Pruning
  // ---------------------------------------------------------------------------------------

  method MarkItem(item: Item, seen: set<string>) returns (names: set<string>)
    ensures names == seen + ItemMarks(item)
  {
    names := seen;
    var rest := item.upstreams.Keys;
    while rest != {}
      invariant rest <= item.upstreams.Keys
      invariant names == seen + set name | name in item.upstreams && name !in rest && Marked(item.upstreams[name])
    {
      var name :| name in rest;
      rest := rest - {name};
      if item.upstreams[name] != Null && item.upstreams[name] != SAME {
        names := names + {name};
      }
    }
  }

  ghost function ItemMarks(item: Item): set<string> {
    set name | name in item.upstreams && Marked(item.upstreams[name])
  }

  ghost function RowMarks(row: Row): set<string> {
    set field, name | field in row && name in ItemMarks(row[field]) :: name
  }

  method MarkRow(row: Row, seen: set<string>) returns (names: set<string>)
    ensures names == seen + RowMarks(row)
  {
    names := seen;
    var rest := row.Keys;
    while rest != {}
      invariant rest <= row.Keys
      invariant names == seen + set field, name | field in row && field !in rest && name in ItemMarks(row[field]) :: name
    {
      var field :| field in rest;
      rest := rest - {field};
      names := MarkItem(row[field], names);
    }
  }

  method MarkAll(d: Differences) returns (names: set<string>)
    ensures names == Differing(d)
  {
    names := {};
    var rest := d.Keys;
    while rest != {}
      invariant rest <= d.Keys
      invariant names == set model, name | model in d && model !in rest && name in RowMarks(d[model]) :: name
    {
      var model :| model in rest;
      rest := rest - {model};
      names := MarkRow(d[model], names);
    }
    forall name ensures name in names <==> name in Differing(d) {
      if name in Differing(d) {
        var model, field :| model in d && field in d[model] && name in d[model][field].upstreams && Marked(d[model][field].upstreams[name]);
        assert name in ItemMarks(d[model][field]);
        assert name in RowMarks(d[model]);
      }
    }
  }

  method PruneItem(item: Item, keep: set<string>) returns (pruned: Item)
    ensures pruned == PrunedItem(item, keep)
  {
    var upstreams, confidence := item.upstreams, item.confidence;
    var rest := item.upstreams.Keys;
    while rest != {}
      invariant rest <= item.upstreams.Keys
      invariant upstreams == map name | name in item.upstreams && (name in rest || name in keep) :: item.upstreams[name]
      invariant confidence == map name | name in item.confidence && (name in rest || name in keep || name !in item.upstreams) :: item.confidence[name]
    {
      var name :| name in rest;
      rest := rest - {name};
      if name !in keep {
        upstreams := upstreams - {name};
        confidence := confidence - {name};
      }
    }
    pruned := Item(item.current, upstreams, confidence);
  }

  method AllSame(upstreams: map<string, Value>) returns (same: bool)
    ensures same <==> forall name :: name in upstreams ==> upstreams[name] == SAME
  {
    same := true;
    var rest := upstreams.Keys;
    while rest != {}
      invariant rest <= upstreams.Keys && same
      invariant forall name :: name in upstreams && name !in rest ==> upstreams[name] == SAME
    {
      var name :| name in rest;
      rest := rest - {name};
      if upstreams[name] != SAME {
        return false;
      }
    }
  }

  lemma SurvivesPruned(item: Item, keep: set<string>)
    ensures Survives(item, keep) <==> !forall name :: name in PrunedItem(item, keep).upstreams ==> PrunedItem(item, keep).upstreams[name] == SAME
  {
    if name :| name in item.upstreams && name in keep && item.upstreams[name] != SAME {
      assert name in PrunedItem(item, keep).upstreams;
    }
  }

  method PruneRow(row: Row, keep: set<string>) returns (pruned: Row)
    ensures pruned == PrunedRow(row, keep)
  {
    pruned := row;
    var rest := row.Keys;
    while rest != {}
      invariant rest <= row.Keys
      invariant pruned.Keys == set field | field in row && (field in rest || Survives(row[field], keep))
      invariant forall field :: field in pruned ==> pruned[field] == if field in rest then row[field] else PrunedItem(row[field], keep)
    {
      var field :| field in rest;
      rest := rest - {field};
      var item := PruneItem(row[field], keep);
      var same := AllSame(item.upstreams);
      SurvivesPruned(row[field], keep);
      if item.upstreams == map[] || same {
        pruned := pruned - {field};
      } else {
        pruned := pruned[field := item];
      }
    }
  }

  /** The table when the rows in `rest` are still to be pruned. */
  ghost function PrunedBut(d: Differences, rest: set<string>, keep: set<string>): Differences {
    map model | model in d && (model in rest || PrunedRow(d[model], keep) != map[]) ::
      if model in rest then d[model] else PrunedRow(d[model], keep)
  }

  lemma PrunedStep(d: Differences, rest: set<string>, keep: set<string>, model: string)
    requires model in rest && rest <= d.Keys
    ensures PrunedBut(d, rest - {model}, keep) ==
            if PrunedRow(d[model], keep) == map[] then PrunedBut(d, rest, keep) - {model}
            else PrunedBut(d, rest, keep)[model := PrunedRow(d[model], keep)]
  {
    var before, after := PrunedBut(d, rest, keep), PrunedBut(d, rest - {model}, keep);
    if PrunedRow(d[model], keep) == map[] {
      MapRemoved(before, after, model);
    } else {
      MapUpdated(before, after, model, PrunedRow(d[model], keep));
    }
  }

  method Prune(d: Differences, keep: set<string>) returns (pruned: Differences)
    ensures pruned == Pruned(d, keep)
  {
    pruned := d;
    var rest := d.Keys;
    assert d == PrunedBut(d, rest, keep);
    while rest != {}
      invariant rest <= d.Keys && pruned == PrunedBut(d, rest, keep)
    {
      var model :| model in rest;
      PrunedStep(d, rest, keep, model);
      rest := rest - {model};
      var row := PruneRow(d[model], keep);
      pruned := if row == map[] then pruned - {model} else pruned[model := row];
    }
    assert PrunedBut(d, {}, keep) == Pruned(d, keep);
  }

  /** The whole comparison. */
  method Differences(local: Table, ups: seq<Upstream>) returns (d: Differences)
    ensures d == BuildDifferences(local, ups)
  {
    d := Compare(local, ups);
    var names := MarkAll(d);
    d := Prune(d, names);
  }
}
