/** What the comparison of prices shows, stated without its passes. */
module PricingTheorems {
  import opened Options
  import opened PricingModel

  ghost predicate DistinctNames(ups: seq<Upstream>) {
    forall i, j :: 0 <= i < j < |ups| ==> ups[i].name != ups[j].name
  }

  /** The upstream has a difference to show, for some model and field. */
  ghost predicate TellsSomewhere(local: Table, u: Upstream) {
    exists model, field :: field in FIELDS && Tells(Current(local, model, field), Reported(u.data, model, field))
  }

  lemma {:induction false} TableModelsExact(data: Table, fields: seq<string>, model: string)
    ensures model in TableModels(data, fields) <==> exists field :: field in fields && model in Models(data, field)
  {
    if fields != [] {
      TableModelsExact(data, fields[1..], model);
      assert fields == [fields[0]] + fields[1..];
    }
  }

  lemma {:induction false} ReportedIsCollected(local: Table, ups: seq<Upstream>, k: nat, model: string, field: string)
    requires k < |ups| && field in FIELDS && Reported(ups[k].data, model, field).Some?
    ensures model in AllModels(local, ups)
    decreases |ups|
  {
    if k == |ups| - 1 {
      TableModelsExact(ups[k].data, FIELDS, model);
    } else {
      ReportedIsCollected(local, ups[..|ups| - 1], k, model, field);
    }
  }

  lemma {:induction false} ColumnNames(current: Value, ups: seq<Upstream>, model: string, field: string, name: string)
    ensures name in Column(current, ups, model, field) <==> exists i :: 0 <= i < |ups| && ups[i].name == name
    ensures name in Trust(ups, model) <==> name in Column(current, ups, model, field)
    decreases |ups|
  {
    if ups != [] {
      var n := |ups| - 1;
      ColumnNames(current, ups[..n], model, field, name);
      if i :| 0 <= i < |ups| && ups[i].name == name {
        assert i < n ==> ups[..n][i].name == name;
      }
    }
  }

  /** With distinct names, each upstream has its own cell. */
  lemma {:induction false} ColumnCell(current: Value, ups: seq<Upstream>, k: nat, model: string, field: string)
    requires DistinctNames(ups) && k < |ups|
    ensures var name := ups[k].name;
            && name in Column(current, ups, model, field) && name in Trust(ups, model)
            && Column(current, ups, model, field)[name] == Cell(current, Reported(ups[k].data, model, field))
            && Trust(ups, model)[name] == !Placeholder(ups[k].data, model)
    decreases |ups|
  {
    if k < |ups| - 1 {
      ColumnCell(current, ups[..|ups| - 1], k, model, field);
    }
  }

  lemma MarkedMeansTells(current: Value, reported: Option<Value>)
    ensures Marked(Cell(current, reported)) <==> Tells(current, reported)
  {}

  /** A difference that can be shown is in the first pass. */
  lemma TellsIsIncluded(local: Table, ups: seq<Upstream>, k: nat, model: string, field: string)
    requires k < |ups| && field in FIELDS && Tells(Current(local, model, field), Reported(ups[k].data, model, field))
    ensures Has(FirstPass(local, ups), model, field)
    ensures FirstPass(local, ups)[model][field] == FirstItem(local, ups, model, field)
  {
    ReportedIsCollected(local, ups, k, model, field);
    assert Included(local, ups, model, field);
    FirstPassAt(local, ups, model, field);
  }

  /** The upstreams that pruning keeps are those with a difference to show. */
  lemma DifferingExact(local: Table, ups: seq<Upstream>, k: nat)
    requires DistinctNames(ups) && k < |ups|
    ensures ups[k].name in Differing(FirstPass(local, ups)) <==> TellsSomewhere(local, ups[k])
  {
    var d: Differences := FirstPass(local, ups);
    var name := ups[k].name;
    if model, field :| field in FIELDS && Tells(Current(local, model, field), Reported(ups[k].data, model, field)) {
      TellsIsIncluded(local, ups, k, model, field);
      ColumnCell(Current(local, model, field), ups, k, model, field);
      assert Marked(d[model][field].upstreams[name]);
    }
    if model, field :| model in d && field in d[model] && name in d[model][field].upstreams && Marked(d[model][field].upstreams[name]) {
      ColumnCell(Current(local, model, field), ups, k, model, field);
      assert field in FIELDS && Tells(Current(local, model, field), Reported(ups[k].data, model, field));
    }
  }

  /** The names that pruning keeps. */
  ghost function Telling(local: Table, ups: seq<Upstream>): set<string> {
    set i | 0 <= i < |ups| && TellsSomewhere(local, ups[i]) :: ups[i].name
  }

  lemma DifferingIsTelling(local: Table, ups: seq<Upstream>)
    requires DistinctNames(ups)
    ensures Differing(FirstPass(local, ups)) == Telling(local, ups)
  {
    var d := FirstPass(local, ups);
    forall name ensures name in Differing(d) <==> name in Telling(local, ups) {
      if name in Differing(d) {
        var model, field :| model in d && field in d[model] && name in d[model][field].upstreams;
        ColumnNames(Current(local, model, field), ups, model, field, name);
        var k :| 0 <= k < |ups| && ups[k].name == name;
        DifferingExact(local, ups, k);
      }
      if name in Telling(local, ups) {
        var k :| 0 <= k < |ups| && TellsSomewhere(local, ups[k]) && ups[k].name == name;
        DifferingExact(local, ups, k);
      }
    }
  }

  lemma FirstPassAt(local: Table, ups: seq<Upstream>, model: string, field: string)
    ensures Has(FirstPass(local, ups), model, field) <==>
              field in FIELDS && model in AllModels(local, ups) && Included(local, ups, model, field)
    ensures Has(FirstPass(local, ups), model, field) ==> FirstPass(local, ups)[model][field] == FirstItem(local, ups, model, field)
  {
    if field in FIELDS && Included(local, ups, model, field) {
      assert field in FirstRow(local, ups, model);
    }
  }

  lemma PrunedAt(d: Differences, keep: set<string>, model: string, field: string)
    ensures Has(Pruned(d, keep), model, field) <==> Has(d, model, field) && Survives(d[model][field], keep)
    ensures Has(Pruned(d, keep), model, field) ==> Pruned(d, keep)[model][field] == PrunedItem(d[model][field], keep)
  {
    if Has(d, model, field) && Survives(d[model][field], keep) {
      assert field in PrunedRow(d[model], keep);
    }
  }

  /** The passes, item by item. */
  lemma ResultExact(local: Table, ups: seq<Upstream>, model: string, field: string)
    requires DistinctNames(ups)
    ensures Has(BuildDifferences(local, ups), model, field) <==>
              && Has(FirstPass(local, ups), model, field)
              && Survives(FirstItem(local, ups, model, field), Telling(local, ups))
    ensures Has(BuildDifferences(local, ups), model, field) ==>
              BuildDifferences(local, ups)[model][field] == PrunedItem(FirstItem(local, ups, model, field), Telling(local, ups))
  {
    DifferingIsTelling(local, ups);
    FirstPassAt(local, ups, model, field);
    PrunedAt(FirstPass(local, ups), Telling(local, ups), model, field);
  }

  /** Someone has a difference to show at this item. */
  ghost predicate Told(local: Table, ups: seq<Upstream>, model: string, field: string) {
    exists i :: 0 <= i < |ups| && Tells(Current(local, model, field), Reported(ups[i].data, model, field))
  }

  /** An upstream that differs elsewhere has nothing, or a null, to set against the local value. */
  ghost predicate Blank(local: Table, ups: seq<Upstream>, model: string, field: string) {
    && Current(local, model, field) != Null
    && exists i :: 0 <= i < |ups| && TellsSomewhere(local, ups[i]) && Reported(ups[i].data, model, field) in {None, Some(Null)}
  }

  /**
   Which items survive, for all data. A difference that can be shown always survives. One that
   cannot (every differing report is a null or the text "same") survives exactly when some
   upstream that differs elsewhere leaves its cell empty.
   */
  lemma SurvivesExactly(local: Table, ups: seq<Upstream>, model: string, field: string)
    requires DistinctNames(ups)
    ensures Has(BuildDifferences(local, ups), model, field) <==>
              && field in FIELDS
              && Differer(Current(local, model, field), ups, model, field)
              && (Told(local, ups, model, field) || Blank(local, ups, model, field))
  {
    ResultExact(local, ups, model, field);
    var current := Current(local, model, field);
    var item, keep := FirstItem(local, ups, model, field), Telling(local, ups);
    if Has(BuildDifferences(local, ups), model, field) {
      FirstPassAt(local, ups, model, field);
      SurvivorShows(local, ups, model, field);
    }
    if k :| field in FIELDS && 0 <= k < |ups| && Tells(current, Reported(ups[k].data, model, field)) {
      TellsIsIncluded(local, ups, k, model, field);
      ColumnCell(current, ups, k, model, field);
      assert TellsSomewhere(local, ups[k]) && ups[k].name in keep;
      assert Survives(item, keep);
    }
    if field in FIELDS && Differer(current, ups, model, field) && Blank(local, ups, model, field) {
      DiffererIsIncluded(local, ups, model, field);
      BlankSurvives(local, ups, model, field);
    }
  }

  lemma SurvivorShows(local: Table, ups: seq<Upstream>, model: string, field: string)
    requires DistinctNames(ups)
    requires Included(local, ups, model, field) && Survives(FirstItem(local, ups, model, field), Telling(local, ups))
    ensures Differer(Current(local, model, field), ups, model, field)
    ensures Told(local, ups, model, field) || Blank(local, ups, model, field)
  {
    var current := Current(local, model, field);
    var column := Column(current, ups, model, field);
    var name :| name in column && name in Telling(local, ups) && column[name] != SAME;
    var k :| 0 <= k < |ups| && TellsSomewhere(local, ups[k]) && ups[k].name == name;
    ColumnCell(current, ups, k, model, field);
    ShownAt(local, ups, k, model, field);
  }

  lemma ShownAt(local: Table, ups: seq<Upstream>, k: nat, model: string, field: string)
    requires k < |ups| && TellsSomewhere(local, ups[k]) && Included(local, ups, model, field)
    requires Cell(Current(local, model, field), Reported(ups[k].data, model, field)) != SAME
    ensures Differer(Current(local, model, field), ups, model, field)
    ensures Told(local, ups, model, field) || Blank(local, ups, model, field)
  {
    var current := Current(local, model, field);
    MarkedMeansTells(current, Reported(ups[k].data, model, field));
  }

  lemma DiffererIsIncluded(local: Table, ups: seq<Upstream>, model: string, field: string)
    requires field in FIELDS && Differer(Current(local, model, field), ups, model, field)
    ensures Has(FirstPass(local, ups), model, field)
  {
    var j :| 0 <= j < |ups| && Differs(Current(local, model, field), Reported(ups[j].data, model, field));
    ReportedIsCollected(local, ups, j, model, field);
    FirstPassAt(local, ups, model, field);
  }

  lemma BlankSurvives(local: Table, ups: seq<Upstream>, model: string, field: string)
    requires DistinctNames(ups) && Blank(local, ups, model, field)
    ensures Survives(FirstItem(local, ups, model, field), Telling(local, ups))
  {
    var current := Current(local, model, field);
    var k :| 0 <= k < |ups| && TellsSomewhere(local, ups[k]) && Reported(ups[k].data, model, field) in {None, Some(Null)};
    ColumnCell(current, ups, k, model, field);
    assert ups[k].name in Telling(local, ups);
    assert Column(current, ups, model, field)[ups[k].name] == Null;
  }

  /** Data without nulls and without the text "same". */
  ghost predicate Plain(data: Table) {
    forall field, model :: field in data && model in data[field] ==> data[field][model] != Null && data[field][model] != Text("same")
  }

  /** On plain data the items are exactly those where some upstream's value is not the local one. */
  lemma SurvivesWhenDifferent(local: Table, ups: seq<Upstream>, model: string, field: string)
    requires DistinctNames(ups) && forall i :: 0 <= i < |ups| ==> Plain(ups[i].data)
    ensures Has(BuildDifferences(local, ups), model, field) <==>
              field in FIELDS && exists i :: 0 <= i < |ups| && Differs(Current(local, model, field), Reported(ups[i].data, model, field))
  {
    SurvivesExactly(local, ups, model, field);
    if k :| field in FIELDS && 0 <= k < |ups| && Differs(Current(local, model, field), Reported(ups[k].data, model, field)) {
      assert Plain(ups[k].data) && field in ups[k].data && model in ups[k].data[field];
      assert Tells(Current(local, model, field), Reported(ups[k].data, model, field));
    }
  }

  /** The table reports a number for the model that is as good as `r`. */
  ghost predicate ReportsNear(data: Table, model: string, field: string, r: real) {
    var v := Reported(data, model, field);
    v.Some? && v.value.Num? && -0.000000001 < v.value.r - r < 0.000000001
  }

  lemma PlaceholderExactly(data: Table, model: string)
    ensures Placeholder(data, model) <==> ReportsNear(data, model, "model_ratio", 37.5) && ReportsNear(data, model, "completion_ratio", 1.0)
  {}

  /** What an item shows of one upstream: its value where it differs, "same", or nothing; and whether its prices are real. */
  ghost predicate Shows(item: Item, u: Upstream, model: string, field: string) {
    && u.name in item.upstreams && u.name in item.confidence
    && (!item.confidence[u.name] <==> ReportsNear(u.data, model, "model_ratio", 37.5) && ReportsNear(u.data, model, "completion_ratio", 1.0))
    && (var shown, reported := item.upstreams[u.name], Reported(u.data, model, field);
        if reported == None then shown == (if item.current == Null then Text("same") else Null)
        else if ValuesEqual(item.current, reported.value) then shown == Text("same")
        else shown == reported.value)
  }

  lemma PrunedShows(local: Table, ups: seq<Upstream>, k: nat, keep: set<string>, model: string, field: string)
    requires DistinctNames(ups) && k < |ups| && ups[k].name in keep
    ensures Shows(PrunedItem(FirstItem(local, ups, model, field), keep), ups[k], model, field)
  {
    ColumnCell(Current(local, model, field), ups, k, model, field);
    PlaceholderExactly(ups[k].data, model);
  }

  lemma PrunedNames(local: Table, ups: seq<Upstream>, model: string, field: string)
    ensures var item := PrunedItem(FirstItem(local, ups, model, field), Telling(local, ups));
            item.upstreams.Keys == Telling(local, ups) && item.confidence.Keys == Telling(local, ups)
  {
    var column, trust := Column(Current(local, model, field), ups, model, field), Trust(ups, model);
    forall name ensures name in column <==> name in trust
                ensures name in Telling(local, ups) ==> name in column {
      ColumnNames(Current(local, model, field), ups, model, field, name);
    }
  }

  /** A surviving item lists exactly the upstreams with a difference somewhere, under both headings, each with its own cell. */
  lemma ListsExactlyDiffering(local: Table, ups: seq<Upstream>, model: string, field: string)
    requires DistinctNames(ups) && Has(BuildDifferences(local, ups), model, field)
    ensures var item := BuildDifferences(local, ups)[model][field];
            && item.current == Current(local, model, field)
            && item.upstreams.Keys == Telling(local, ups) && item.confidence.Keys == Telling(local, ups)
            && forall k :: 0 <= k < |ups| && ups[k].name in Telling(local, ups) ==> Shows(item, ups[k], model, field)
  {
    ResultExact(local, ups, model, field);
    PrunedNames(local, ups, model, field);
    forall k | 0 <= k < |ups| && ups[k].name in Telling(local, ups)
      ensures Shows(PrunedItem(FirstItem(local, ups, model, field), Telling(local, ups)), ups[k], model, field) {
      PrunedShows(local, ups, k, Telling(local, ups), model, field);
    }
  }

  lemma DifferingStays(d: Differences)
    ensures Differing(Pruned(d, Differing(d))) == Differing(d)
  {
    var keep := Differing(d);
    var once := Pruned(d, keep);
    forall name ensures name in Differing(once) <==> name in keep {
      if name in keep {
        var model, field :| model in d && field in d[model] && name in d[model][field].upstreams && Marked(d[model][field].upstreams[name]);
        assert Survives(d[model][field], keep);
        PrunedAt(d, keep, model, field);
        assert name in once[model][field].upstreams;
      }
      if name in Differing(once) {
        var model, field :| model in once && field in once[model] && name in once[model][field].upstreams && Marked(once[model][field].upstreams[name]);
        PrunedAt(d, keep, model, field);
      }
    }
  }

  /** One pruning pass is enough, whatever it prunes: a second one finds the same upstreams and drops nothing. */
  lemma PruningOnceIsEnough(d: Differences)
    ensures var once := Pruned(d, Differing(d)); Pruned(once, Differing(once)) == once
  {
    DifferingStays(d);
    PrunedTwice(d, Differing(d));
  }

  lemma PrunedTwice(d: Differences, keep: set<string>)
    ensures Pruned(Pruned(d, keep), keep) == Pruned(d, keep)
  {
    var once := Pruned(d, keep);
    var twice := Pruned(once, keep);
    forall model | model in once ensures model in twice && twice[model] == once[model] {
      PrunedRowTwice(d[model], keep);
    }
  }

  lemma PrunedRowTwice(row: Row, keep: set<string>)
    ensures PrunedRow(PrunedRow(row, keep), keep) == PrunedRow(row, keep)
  {
    var once := PrunedRow(row, keep);
    forall field | field in once ensures Survives(once[field], keep) && PrunedItem(once[field], keep) == once[field] {
      PrunedItemTwice(row[field], keep);
    }
  }

  lemma PrunedItemTwice(item: Item, keep: set<string>)
    ensures Survives(item, keep) ==> Survives(PrunedItem(item, keep), keep)
    ensures PrunedItem(PrunedItem(item, keep), keep) == PrunedItem(item, keep)
  {
    var once := PrunedItem(item, keep);
    if name :| name in item.upstreams && name in keep && item.upstreams[name] != SAME {
      assert once.upstreams[name] == item.upstreams[name];
    }
  }

  /** The hypothesis matters: where every upstream reports the text "same", all of them differ and none is listed. */
  lemma LiteralSameIsLost(local: Table, ups: seq<Upstream>, model: string, field: string)
    requires DistinctNames(ups) && ups != [] && field in FIELDS && Current(local, model, field) != Text("same")
    requires forall i :: 0 <= i < |ups| ==> Reported(ups[i].data, model, field) == Some(Text("same"))
    ensures forall i :: 0 <= i < |ups| ==> Differs(Current(local, model, field), Reported(ups[i].data, model, field))
    ensures !Has(BuildDifferences(local, ups), model, field)
  {
    SurvivesExactly(local, ups, model, field);
  }

  // ---------------------------------------------------------------------------------------
  // Differences by the data
  // ---------------------------------------------------------------------------------------

  /** A number, whole or not. */
  ghost predicate IsNumber(v: Value, r: real) {
    v == Num(r) || (v.Whole? && v.n as real == r)
  }

  /** What a table has for a model: nothing counts as null. */
  ghost function Raw(data: Table, model: string, field: string): Value {
    if field in data && model in data[field] then data[field][model] else Null
  }

  /** The fields whose values are compared as numbers, whole or not. */
  ghost predicate Numeric(field: string) {
    || field == "model_ratio" || field == "completion_ratio" || field == "cache_ratio" || field == "create_cache_ratio"
    || field == "image_ratio" || field == "audio_ratio" || field == "audio_completion_ratio" || field == "model_price"
  }

  /** The fields that are compared: these, and the two about billing. */
  lemma FieldsExactly(field: string)
    ensures field in FIELDS <==> Numeric(field) || field == "billing_mode" || field == "billing_expr"
    ensures field in NUMERIC <==> Numeric(field)
  {
    if field in FIELDS {
      var i :| 0 <= i < |FIELDS| && FIELDS[i] == field;
    }
    assert FIELDS[0] == "model_ratio" && FIELDS[1] == "completion_ratio" && FIELDS[2] == "cache_ratio" && FIELDS[3] == "create_cache_ratio";
    assert FIELDS[4] == "image_ratio" && FIELDS[5] == "audio_ratio" && FIELDS[6] == "audio_completion_ratio" && FIELDS[7] == "model_price";
    assert FIELDS[8] == "billing_mode" && FIELDS[9] == "billing_expr";
  }

  /**
   An upstream differs, by the data: it has a value for the model, and that is another number by the tolerance or
   more, where both are numbers (in the numeric fields also whole ones), and otherwise another value.
   */
  lemma DiffersExactly(local: Table, data: Table, model: string, field: string)
    ensures Differs(Current(local, model, field), Reported(data, model, field)) <==>
              && field in data && model in data[field]
              && var a, b := Raw(local, model, field), Raw(data, model, field);
                 if Numeric(field) && (a.Num? || a.Whole?) && (b.Num? || b.Whole?)
                 then exists x, y :: IsNumber(a, x) && IsNumber(b, y) && !(-0.000000001 < x - y < 0.000000001)
                 else if a.Num? && b.Num? then !(-0.000000001 < a.r - b.r < 0.000000001)
                 else a != b
  {
    FieldsExactly(field);
    var a, b := Raw(local, model, field), Raw(data, model, field);
    if (a.Num? || a.Whole?) && (b.Num? || b.Whole?) {
      assert IsNumber(a, AsFloat(a).value) && IsNumber(b, AsFloat(b).value);
    }
  }
}
