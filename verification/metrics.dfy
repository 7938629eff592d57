/**
 * The flattening of one trajectory's metrics record: the nested `RMSEdict`
 * is merged into the record and the aggregate `RMSE` entry is removed. The
 * record is a mutable dictionary, so the operation works on a copy.
 */
module Metrics {
  import opened Wrappers

  /** A value parsed from the metrics JSON file. */
  datatype Json =
    | Null
    | Bool(b: bool)
    | Num(x: real)
    | Str(s: string)
    | Arr(items: seq<Json>)
    | Obj(fields: map<string, Json>)

  datatype MetricsError =
    | MissingKey(key: string)  // KeyError from pop or del
    | NotMapping               // dict.update given a value that is not a mapping

  const NestedKey := "RMSEdict"
  const AggregateKey := "RMSE"

  /** A dictionary object, shared by reference like a Python dict. */
  class JsonDict {
    var items: map<string, Json>

    constructor (items: map<string, Json>)
      ensures this.items == items
    {
      this.items := items;
    }

    /** dict.copy(): a new dictionary with the same entries. */
    method Copy() returns (d: JsonDict)
      ensures fresh(d) && d.items == items
    {
      d := new JsonDict(items);
    }

    /** dict.pop(key) without a default. */
    method Pop(key: string) returns (r: Result<Json, MetricsError>)
      modifies this
      ensures key in old(items) ==> r == Ok(old(items)[key]) && items == old(items) - {key}
      ensures key !in old(items) ==> r == Err(MissingKey(key)) && items == old(items)
    {
      if key !in items {
        return Err(MissingKey(key));
      }
      r := Ok(items[key]);
      items := items - {key};
    }

    /** `del d[key]` */
    method Delete(key: string) returns (r: Result<(), MetricsError>)
      modifies this
      ensures key in old(items) ==> r == Ok(()) && items == old(items) - {key}
      ensures key !in old(items) ==> r == Err(MissingKey(key)) && items == old(items)
    {
      if key !in items {
        return Err(MissingKey(key));
      }
      items := items - {key};
      return Ok(());
    }

    /** dict.update(other) for a mapping: its entries are added, replacing
        entries with the same key. */
    method Update(other: map<string, Json>)
      modifies this
      ensures items == old(items) + other
    {
      items := items + other;
    }
  }

  /** The record format_traj_res produces from a record, or the error it
      raises. */
  function Flattened(rec: map<string, Json>): (r: Result<map<string, Json>, MetricsError>)
    ensures r.Ok? <==> NestedKey in rec && AggregateKey in rec && rec[NestedKey].Obj?
    ensures NestedKey !in rec ==> r == Err(MissingKey(NestedKey))
    ensures NestedKey in rec && AggregateKey !in rec ==> r == Err(MissingKey(AggregateKey))
    ensures NestedKey in rec && AggregateKey in rec && !rec[NestedKey].Obj? ==> r == Err(NotMapping)
    ensures r.Ok? ==>
      var nested := rec[NestedKey].fields;
      && r.value.Keys == (rec.Keys - {NestedKey, AggregateKey}) + nested.Keys
      && (forall k :: k in nested ==> r.value[k] == nested[k])
      && (forall k :: k in rec && k !in nested && k != NestedKey && k != AggregateKey ==> r.value[k] == rec[k])
  {
    if NestedKey !in rec then Err(MissingKey(NestedKey))
    else if AggregateKey !in rec then Err(MissingKey(AggregateKey))
    else if !rec[NestedKey].Obj? then Err(NotMapping)
    else Ok(rec - {NestedKey, AggregateKey} + rec[NestedKey].fields)
  }

  /** format_traj_res: copy the record, pop the nested metrics, delete the
      aggregate, and merge the nested metrics into the copy. The argument is
      left as it was. */
  method FormatTrajRes(traj: JsonDict) returns (r: Result<JsonDict, MetricsError>)
    ensures unchanged(traj)
    ensures r.Ok? <==> Flattened(traj.items).Ok?
    ensures r.Ok? ==> fresh(r.value) && r.value.items == Flattened(traj.items).value
    ensures r.Err? ==> Flattened(traj.items) == Err(r.error)
  {
    var flat := traj.Copy();
    var nested := flat.Pop(NestedKey);
    if nested.Err? {
      return Err(nested.error);
    }
    var deleted := flat.Delete(AggregateKey);
    if deleted.Err? {
      return Err(deleted.error);
    }
    if !nested.value.Obj? {
      return Err(NotMapping);
    }
    flat.Update(nested.value.fields);
    assert flat.items == traj.items - {NestedKey} - {AggregateKey} + traj.items[NestedKey].fields;
    assert traj.items - {NestedKey} - {AggregateKey} == traj.items - {NestedKey, AggregateKey};
    return Ok(flat);
  }

  /** Flattening is not idempotent: when the nested metrics carry no
      `RMSEdict` of their own, flattening the result fails with KeyError. */
  lemma FlattenedNotRepeatable(rec: map<string, Json>)
    requires Flattened(rec).Ok?
    requires NestedKey !in rec[NestedKey].fields
    ensures Flattened(Flattened(rec).value) == Err(MissingKey(NestedKey))
  {
  }
}
