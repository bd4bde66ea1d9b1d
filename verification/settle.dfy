/** The small promise helpers of src/index.js: allSettled, pluckValue and
    getValues. A promise is modelled by the Result it settles with. */
module Settle {
  import opened Common

  /** One entry of allSettled's answer: `{ value }` or `{ reason }`. */
  datatype Settlement<+T> = Value(value: T) | Reason(reason: KeeperError)

  /** allSettled: walks the promises from the last to the first, awaiting each
      and putting its settlement at the front, so entry j reports promise j. */
  method AllSettled<T>(promises: seq<Result<T>>) returns (vals: seq<Settlement<T>>)
    ensures |vals| == |promises|
    ensures forall j :: 0 <= j < |promises| && promises[j].Ok? ==> vals[j] == Value(promises[j].value)
    ensures forall j :: 0 <= j < |promises| && promises[j].Err? ==> vals[j] == Reason(promises[j].error)
  {
    vals := [];
    var i := |promises|;
    while i > 0
      invariant 0 <= i <= |promises|
      invariant |vals| == |promises| - i
      invariant forall j :: 0 <= j < |vals| && promises[i + j].Ok? ==> vals[j] == Value(promises[i + j].value)
      invariant forall j :: 0 <= j < |vals| && promises[i + j].Err? ==> vals[j] == Reason(promises[i + j].error)
    {
      i := i - 1;
      match promises[i]
      case Ok(v) => vals := [Value(v)] + vals;
      case Err(e) => vals := [Reason(e)] + vals;
    }
  }

  /** pluckValue: `r.value` of each entry, undefined (None) for a rejection. */
  function PluckValue<T>(results: seq<Settlement<T>>): (r: seq<Option<T>>)
    ensures |r| == |results|
    ensures forall i :: 0 <= i < |results| ==> (r[i].Some? <==> results[i].Value?)
    ensures forall i :: 0 <= i < |results| && results[i].Value? ==> r[i].value == results[i].value
  {
    seq(|results|, i requires 0 <= i < |results| => if results[i].Value? then Some(results[i].value) else None)
  }

  /** `pluckValue(await allSettled(promises))`, the join shared by getMany and
      putMany: one answer per promise, in order, None where it was rejected. */
  method SettleValues<T>(promises: seq<Result<T>>) returns (r: seq<Option<T>>)
    ensures |r| == |promises|
    ensures forall i :: 0 <= i < |promises| ==> (r[i].Some? <==> promises[i].Ok?)
    ensures forall i :: 0 <= i < |promises| && promises[i].Ok? ==> r[i].value == promises[i].value
  {
    var settled := AllSettled(promises);
    r := PluckValue(settled);
  }

  /** getValues: the values of an object's own properties, pushed one per key
      in a `for ... in` loop. The keys' order is the engine's and is left open;
      `keys` records the order this run picked. */
  method GetValues<K, V(==)>(obj: map<K, V>) returns (vals: seq<V>, ghost keys: seq<K>)
    ensures |vals| == |obj.Keys|
    ensures forall v :: v in vals <==> v in obj.Values
    ensures |keys| == |obj.Keys|
    ensures forall i :: 0 <= i < |keys| ==> keys[i] in obj && vals[i] == obj[keys[i]]
    ensures forall i, j :: 0 <= i < j < |keys| ==> keys[i] != keys[j]
    ensures forall k :: k in obj ==> k in keys
  {
    vals, keys := [], [];
    var rest := obj.Keys;
    while rest != {}
      invariant rest <= obj.Keys
      invariant |vals| == |keys|
      invariant |keys| + |rest| == |obj.Keys|
      invariant forall i :: 0 <= i < |keys| ==> keys[i] in obj && keys[i] !in rest && vals[i] == obj[keys[i]]
      invariant forall i, j :: 0 <= i < j < |keys| ==> keys[i] != keys[j]
      invariant forall k :: k in obj ==> k in rest || k in keys
      invariant forall v :: v in vals ==> v in obj.Values
      decreases rest
    {
      var p :| p in rest;
      vals, keys := vals + [obj[p]], keys + [p];
      rest := rest - {p};
    }
  }
}
