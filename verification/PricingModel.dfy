/**
 Comparing the local pricing data with what upstreams report: the values, the first pass that
 marks every cell of the comparison, and the pruning that leaves what differs.
 */
module PricingModel {
  import opened Options

  /** A decoded value. `Null` is both a missing value and a JSON null, as in the comparison. */
  datatype Value = Null | Num(r: real) | Whole(n: int) | Text(s: string) | Flag(b: bool)

  const SAME := Text("same")
  const EPSILON := 0.000000001

  const FIELDS := [
    "model_ratio", "completion_ratio", "cache_ratio", "create_cache_ratio", "image_ratio",
    "audio_ratio", "audio_completion_ratio", "model_price", "billing_mode", "billing_expr"]

  const NUMERIC := {
    "model_ratio", "completion_ratio", "cache_ratio", "create_cache_ratio", "image_ratio",
    "audio_ratio", "audio_completion_ratio", "model_price"}

  /** For each field, a value for each model. A field that is missing or not a map has no models. */
  type Table = map<string, map<string, Value>>

  datatype Upstream = Upstream(name: string, data: Table)

  datatype Item = Item(current: Value, upstreams: map<string, Value>, confidence: map<string, bool>)

  type Row = map<string, Item>
  type Differences = map<string, Row>

  predicate NearlyEqual(a: real, b: real): (near: bool)
    ensures near <==> -0.000000001 < a - b < 0.000000001
  {
    if a > b then a - b < EPSILON else b - a < EPSILON
  }

  predicate ValuesEqual(a: Value, b: Value) {
    if a.Num? && b.Num? then NearlyEqual(a.r, b.r) else a == b
  }

  function AsFloat(v: Value): Option<real> {
    match v
    case Num(r) => Some(r)
    case Whole(n) => Some(n as real)
    case _ => None
  }

  function NormalizeValue(field: string, v: Value): Value {
    if field in NUMERIC && AsFloat(v).Some? then Num(AsFloat(v).value) else v
  }

  function Models(data: Table, field: string): map<string, Value> {
    if field in data then data[field] else map[]
  }

  /** What a table says about a model, normalized. */
  function Reported(data: Table, model: string, field: string): Option<Value> {
    if model in Models(data, field) then Some(NormalizeValue(field, Models(data, field)[model])) else None
  }

  function Current(local: Table, model: string, field: string): Value {
    var r := Reported(local, model, field);
    if r.Some? then r.value else Null
  }

  /** The upstream reports a value that is not the local one. */
  predicate Differs(current: Value, reported: Option<Value>) {
    reported.Some? && !ValuesEqual(current, reported.value)
  }

  /** A difference that can be shown: neither a null nor the text that marks agreement. */
  predicate Tells(current: Value, reported: Option<Value>) {
    Differs(current, reported) && reported.value != Null && reported.value != SAME
  }

  /** What the comparison shows for one upstream. */
  function Cell(current: Value, reported: Option<Value>): Value {
    if Differs(current, reported) then reported.value
    else if reported.Some? || current == Null then SAME
    else Null
  }

  /** A cell that counts as a difference of its upstream. */
  predicate Marked(cell: Value) {
    cell != Null && cell != SAME
  }

  /** The placeholder prices of an upstream that does not know the model. */
  predicate Placeholder(data: Table, model: string) {
    var ratio, completion := Models(data, "model_ratio"), Models(data, "completion_ratio");
    && model in ratio && AsFloat(ratio[model]).Some? && NearlyEqual(AsFloat(ratio[model]).value, 37.5)
    && model in completion && AsFloat(completion[model]).Some? && NearlyEqual(AsFloat(completion[model]).value, 1.0)
  }

  // ---------------------------------------------------------------------------------------
  // The first pass
  // ---------------------------------------------------------------------------------------

  function TableModels(data: Table, fields: seq<string>): set<string> {
    if fields == [] then {} else Models(data, fields[0]).Keys + TableModels(data, fields[1..])
  }

  function AllModels(local: Table, ups: seq<Upstream>): set<string>
    decreases |ups|
  {
    if ups == [] then TableModels(local, FIELDS)
    else AllModels(local, ups[..|ups| - 1]) + TableModels(ups[|ups| - 1].data, FIELDS)
  }

  /** For each name, the last upstream of that name: an earlier one's cells are overwritten. */
  function Column(current: Value, ups: seq<Upstream>, model: string, field: string): map<string, Value>
    decreases |ups|
  {
    if ups == [] then map[]
    else
      var u := ups[|ups| - 1];
      Column(current, ups[..|ups| - 1], model, field)[u.name := Cell(current, Reported(u.data, model, field))]
  }

  function Trust(ups: seq<Upstream>, model: string): map<string, bool>
    decreases |ups|
  {
    if ups == [] then map[]
    else
      var u := ups[|ups| - 1];
      Trust(ups[..|ups| - 1], model)[u.name := !Placeholder(u.data, model)]
  }

  predicate Reporter(ups: seq<Upstream>, model: string, field: string) {
    exists i :: 0 <= i < |ups| && Reported(ups[i].data, model, field).Some?
  }

  predicate Differer(current: Value, ups: seq<Upstream>, model: string, field: string) {
    exists i :: 0 <= i < |ups| && Differs(current, Reported(ups[i].data, model, field))
  }

  predicate Included(local: Table, ups: seq<Upstream>, model: string, field: string) {
    var current := Current(local, model, field);
    if current != Null then Differer(current, ups, model, field) else Reporter(ups, model, field)
  }

  function FirstItem(local: Table, ups: seq<Upstream>, model: string, field: string): Item {
    var current := Current(local, model, field);
    Item(current, Column(current, ups, model, field), Trust(ups, model))
  }

  function FirstRow(local: Table, ups: seq<Upstream>, model: string): Row {
    RowOver(local, ups, model, FIELDS)
  }

  function RowOver(local: Table, ups: seq<Upstream>, model: string, fields: seq<string>): Row {
    map field | field in fields && Included(local, ups, model, field) :: FirstItem(local, ups, model, field)
  }

  function FirstPass(local: Table, ups: seq<Upstream>): Differences {
    PassOver(local, ups, AllModels(local, ups))
  }

  function PassOver(local: Table, ups: seq<Upstream>, models: set<string>): Differences {
    map model | model in models && FirstRow(local, ups, model) != map[] :: FirstRow(local, ups, model)
  }

  // ---------------------------------------------------------------------------------------
  // Pruning
  // ---------------------------------------------------------------------------------------

  predicate Has(d: Differences, model: string, field: string) {
    model in d && field in d[model]
  }

  /** The upstreams with a difference somewhere. */
  function Differing(d: Differences): set<string> {
    set model, field, name |
      model in d && field in d[model] && name in d[model][field].upstreams && Marked(d[model][field].upstreams[name]) :: name
  }

  function PrunedItem(item: Item, keep: set<string>): Item {
    Item(item.current,
         map name | name in item.upstreams && name in keep :: item.upstreams[name],
         map name | name in item.confidence && (name in keep || name !in item.upstreams) :: item.confidence[name])
  }

  predicate Survives(item: Item, keep: set<string>) {
    exists name :: name in item.upstreams && name in keep && item.upstreams[name] != SAME
  }

  function PrunedRow(row: Row, keep: set<string>): Row {
    map field | field in row && Survives(row[field], keep) :: PrunedItem(row[field], keep)
  }

  function Pruned(d: Differences, keep: set<string>): Differences {
    map model | model in d && PrunedRow(d[model], keep) != map[] :: PrunedRow(d[model], keep)
  }

  function BuildDifferences(local: Table, ups: seq<Upstream>): Differences {
    var d := FirstPass(local, ups);
    Pruned(d, Differing(d))
  }
}
