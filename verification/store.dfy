/** The backing store as the Keeper sees it: a map from key to bytes, its
    batch primitive, the entries its read stream yields, and the Keeper's
    pure helpers over them (removeMany's batch, the getAll fold, getAllKeys,
    getAllValues). */
module Store {
  import opened Common

  /** One `{ key, value }` item of the store's read stream. */
  datatype Entry = Entry(key: string, value: Bytes)

  /** One operation of a store batch. */
  datatype BatchOp = DelOp(key: string) | PutOp(key: string, value: Bytes)

  /** The store's batch: the operations applied in order. */
  function ApplyBatch(db: map<string, Bytes>, ops: seq<BatchOp>): map<string, Bytes>
    decreases |ops|
  {
    if ops == [] then db
    else
      var next := match ops[0]
        case DelOp(k) => db - {k}
        case PutOp(k, v) => db[k := v];
      ApplyBatch(next, ops[1..])
  }

  /** removeMany's batch: `{ type: 'del', key }` for each key, in order. */
  function RemoveBatch(keys: seq<string>): (ops: seq<BatchOp>)
    ensures |ops| == |keys|
    ensures forall i :: 0 <= i < |keys| ==> ops[i] == DelOp(keys[i])
  {
    seq(|keys|, i requires 0 <= i < |keys| => DelOp(keys[i]))
  }

  /** Applying removeMany's batch deletes exactly the given keys. */
  lemma {:induction false} RemoveBatchDeletes(db: map<string, Bytes>, keys: seq<string>)
    ensures ApplyBatch(db, RemoveBatch(keys)) == db - (set k | k in keys)
    decreases |keys|
  {
    if keys != [] {
      var ops := RemoveBatch(keys);
      assert ops[1..] == RemoveBatch(keys[1..]);
      RemoveBatchDeletes(db - {keys[0]}, keys[1..]);
      assert (db - {keys[0]}) - (set k | k in keys[1..]) == db - (set k | k in keys);
    }
  }

  /** The read stream's contract: every stored pair exactly once, nothing else. */
  ghost predicate Enumerates(data: seq<Entry>, db: map<string, Bytes>) {
    && (forall i :: 0 <= i < |data| ==> data[i].key in db && db[data[i].key] == data[i].value)
    && (forall i, j :: 0 <= i < j < |data| ==> data[i].key != data[j].key)
    && (forall k :: k in db ==> exists i :: 0 <= i < |data| && data[i].key == k)
  }

  /** No later entry of `data` has the key of entry i. */
  ghost predicate IsLast(data: seq<Entry>, i: int)
    requires 0 <= i < |data|
  {
    forall j :: i < j < |data| ==> data[j].key != data[i].key
  }

  /** `m` is what `data.forEach(({ key, value }) => map[key] = value)` leaves:
      every key of the stream, nothing else, each with its last value. */
  ghost predicate Collects(data: seq<Entry>, m: map<string, Bytes>) {
    && (forall i :: 0 <= i < |data| ==> data[i].key in m)
    && (forall k :: k in m ==> exists i :: 0 <= i < |data| && data[i].key == k)
    && (forall i :: 0 <= i < |data| && IsLast(data, i) ==> m[data[i].key] == data[i].value)
  }

  /** getAll's fold of the read stream into a plain object. */
  method GetAll(data: seq<Entry>) returns (m: map<string, Bytes>)
    ensures Collects(data, m)
  {
    m := map[];
    for i := 0 to |data|
      invariant forall j :: 0 <= j < i ==> data[j].key in m
      invariant forall k :: k in m ==> exists j :: 0 <= j < i && data[j].key == k
      invariant forall j :: 0 <= j < i && (forall l :: j < l < i ==> data[l].key != data[j].key) ==>
                  m[data[j].key] == data[j].value
    {
      m := m[data[i].key := data[i].value];
    }
  }

  /** getAll over a store's full read stream gives back the store itself. */
  lemma {:induction false} CollectsEnumeration(data: seq<Entry>, db: map<string, Bytes>, m: map<string, Bytes>)
    requires Enumerates(data, db) && Collects(data, m)
    ensures m == db
  {
    forall k | k in m
      ensures k in db && m[k] == db[k]
    {
      var i :| 0 <= i < |data| && data[i].key == k;
      assert IsLast(data, i);
    }
    forall k | k in db
      ensures k in m
    {
      var i :| 0 <= i < |data| && data[i].key == k;
    }
  }

  /** getAllKeys: the keys of the read stream, in stream order. */
  function GetAllKeys(data: seq<Entry>): (keys: seq<string>)
    ensures |keys| == |data|
    ensures forall i :: 0 <= i < |data| ==> keys[i] == data[i].key
  {
    seq(|data|, i requires 0 <= i < |data| => data[i].key)
  }

  /** getAllValues: the values of the read stream, in stream order. */
  function GetAllValues(data: seq<Entry>): (vals: seq<Bytes>)
    ensures |vals| == |data|
    ensures forall i :: 0 <= i < |data| ==> vals[i] == data[i].value
  {
    seq(|data|, i requires 0 <= i < |data| => data[i].value)
  }

  /** Over a full read stream, getAllKeys yields each stored key once and
      getAllValues each stored value, keyed pairwise by position. */
  lemma {:induction false} EnumeratedKeysAndValues(data: seq<Entry>, db: map<string, Bytes>)
    requires Enumerates(data, db)
    ensures (set k | k in GetAllKeys(data)) == db.Keys
    ensures forall i :: 0 <= i < |data| ==> db[GetAllKeys(data)[i]] == GetAllValues(data)[i]
    ensures forall i, j :: 0 <= i < j < |data| ==> GetAllKeys(data)[i] != GetAllKeys(data)[j]
  {
    var keys := GetAllKeys(data);
    forall k | k in db
      ensures k in keys
    {
      var i :| 0 <= i < |data| && data[i].key == k;
      assert keys[i] == k;
    }
  }
}
