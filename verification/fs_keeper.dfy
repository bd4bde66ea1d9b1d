/** The older, filesystem-backed Keeper (index.js): each value lives in a file
    whose path shards its key as `storage/kk/rest`; in-flight writes are kept
    in a `_pending` array (pushed on start, spliced out when settled); and a
    put of a key whose file already exists fails instead of succeeding. The
    file system is a map from path to contents. */
module FsKeeper {
  import opened Common
  import opened Validation
  import opened Settle

  // ---------------------------------------------------------------- paths

  /** Node's path.join of two segments: a zero-length segment is dropped. */
  function Join(a: string, b: string): string {
    if a == "" then b else if b == "" then a else a + "/" + b
  }

  /** `key.slice(0, 2)`: slice clamps at the end of a short key. */
  function KeyDir(key: string): (d: string)
    ensures |d| == if |key| < 2 then |key| else 2
  {
    if |key| < 2 then key else key[..2]
  }

  /** `key.slice(2)`. */
  function KeyFile(key: string): (f: string)
    ensures KeyDir(key) + f == key
  {
    if |key| < 2 then "" else key[2..]
  }

  /** _getAbsPathForKey: `path.join(storage, key.slice(0, 2), key.slice(2))`. */
  function ShardPath(storage: string, key: string): (path: string)
    ensures storage != "" && |key| > 2 ==> path == storage + "/" + key[..2] + "/" + key[2..]
    ensures storage != "" && 0 < |key| <= 2 ==> path == storage + "/" + key
  {
    Join(Join(storage, KeyDir(key)), KeyFile(key))
  }

  /** The key a path under `storage` stands for: drop `storage/` and the
      separator after the first two characters. */
  function KeyForPath(storage: string, path: string): string {
    var rel := if storage == "" then path else if |path| > |storage| then path[|storage| + 1..] else "";
    if |rel| > 2 then rel[..2] + rel[3..] else rel
  }

  /** Under this join, which does not normalise, the sharded path determines
      its key. */
  lemma {:induction false} ShardPathRoundTrip(storage: string, key: string)
    ensures KeyForPath(storage, ShardPath(storage, key)) == key
  {
    var dir, file := KeyDir(key), KeyFile(key);
    assert dir + file == key;
    if |key| > 2 {
      var rel := dir + "/" + file;
      assert rel[..2] == dir && rel[3..] == file;
      if storage != "" {
        assert ShardPath(storage, key) == storage + "/" + rel;
        assert (storage + "/" + rel)[|storage| + 1..] == rel;
      }
    } else if key != "" {
      assert file == "" && dir == key;
      if storage != "" {
        assert (storage + "/" + key)[|storage| + 1..] == key;
      }
    }
  }

  lemma ShardPathInjective(storage: string, k1: string, k2: string)
    requires ShardPath(storage, k1) == ShardPath(storage, k2)
    ensures k1 == k2
  {
    ShardPathRoundTrip(storage, k1);
    ShardPathRoundTrip(storage, k2);
  }

  // ---------------------------------------------------------------- _save

  /** _save run without interruption: asks whether the file exists, writes it,
      and answers `!exists`. The class splits it at its awaits. */
  function Save(files: map<string, Bytes>, path: string, val: Bytes): (r: (map<string, Bytes>, bool))
    ensures path in r.0 && r.0[path] == val
    ensures forall p :: p != path ==> (p in r.0 <==> p in files) && (p in files ==> r.0[p] == files[p])
    ensures r.1 <==> path !in files
  {
    (files[path := val], path !in files)
  }

  // ---------------------------------------------------------------- the _pending array

  /** `array.indexOf(x)`: the first index holding x, or -1. */
  function IndexOf(s: seq<nat>, x: nat): (i: int)
    ensures -1 <= i < |s|
    ensures i >= 0 ==> s[i] == x && forall j :: 0 <= j < i ==> s[j] != x
    ensures i == -1 <==> x !in s
    decreases |s|
  {
    if s == [] then -1
    else if s[0] == x then 0
    else
      var r := IndexOf(s[1..], x);
      if r == -1 then -1 else r + 1
  }

  /** `array.splice(start, 1)`: a negative start counts from the end. */
  function SpliceOne(s: seq<nat>, start: int): seq<nat> {
    var at := if start < 0 then (if |s| + start < 0 then 0 else |s| + start) else start;
    if at < |s| then s[..at] + s[at + 1..] else s
  }

  predicate Distinct(s: seq<nat>) {
    forall i, j :: 0 <= i < j < |s| ==> s[i] != s[j]
  }

  /** Splicing out a settled handle removes that handle and nothing else. */
  lemma {:induction false} SpliceRemovesHandle(s: seq<nat>, h: nat)
    requires h in s && Distinct(s)
    ensures var t := SpliceOne(s, IndexOf(s, h));
      && h !in t && Distinct(t) && |t| == |s| - 1
      && (forall x :: x in t <==> x in s && x != h)
  {
    var i := IndexOf(s, h);
    var t := SpliceOne(s, i);
    assert t == s[..i] + s[i + 1..];
    forall x | x in s && x != h
      ensures x in t
    {
      var j :| 0 <= j < |s| && s[j] == x;
      if j < i { assert t[j] == x; } else { assert t[j - 1] == x; }
    }
  }

  /** A handle pushed and then spliced out leaves `_pending` as it was. */
  lemma {:induction false} PushThenSplice(s: seq<nat>, h: nat)
    requires h !in s
    ensures SpliceOne(s + [h], IndexOf(s + [h], h)) == s
  {
    var i := IndexOf(s + [h], h);
    assert (s + [h])[|s|] == h;
    assert i == |s|;
  }

  // ---------------------------------------------------------------- the class

  /** Where the chain of one older `_doPut` stands. */
  datatype FsWriteState =
    | AwaitingExists  // fs.exists(path) has been asked
    | AwaitingSave    // the file was absent; _save has asked fs.exists again
    | Writing(existed: bool)  // _save's own check answered; mkdirp and writeFile run

  /** What the chain of one in-flight promise holds. */
  datatype FsWrite = FsWrite(key: string, value: Bytes, state: FsWriteState)

  class FsKeeper {
    const storage: string
    const digest: Bytes -> InfoHash
    var files: map<string, Bytes>
    var pending: seq<nat>          // _pending: the in-flight promises, in push order
    var writes: map<nat, FsWrite>  // the key and value each in-flight promise writes
    var closed: bool
    var nextHandle: nat

    ghost predicate Valid()
      reads this
    {
      && Distinct(pending)
      && (forall h :: h in writes <==> h in pending)
      && (forall h :: h in writes ==> h < nextHandle)
    }

    /** `new Keeper({ storage })`: an empty `_pending`. */
    constructor (storage: string, files: map<string, Bytes>, digest: Bytes -> InfoHash)
      ensures Valid()
      ensures this.storage == storage && this.files == files && this.digest == digest
      ensures pending == [] && writes == map[] && !closed && nextHandle == 0
    {
      this.storage, this.digest := storage, digest;
      this.files := files;
      pending, writes := [], map[];
      closed, nextHandle := false, 0;
    }

    /** The synchronous part of `_doPut`: rejected once closed; otherwise the
        new promise is pushed onto `_pending` and fs.exists is asked. */
    method DoPut(key: string, value: Bytes) returns (r: Result<nat>)
      requires Valid()
      modifies this
      ensures Valid()
      ensures old(closed) ==> r == Err(Closed) && unchanged(this)
      ensures !old(closed) ==>
                && r == Ok(old(nextHandle))
                && pending == old(pending) + [r.value]
                && writes == old(writes)[r.value := FsWrite(key, value, AwaitingExists)]
                && files == old(files) && closed == old(closed)
                && nextHandle == old(nextHandle) + 1
    {
      if closed {
        return Err(Closed);
      }
      var h := nextHandle;
      forall i | 0 <= i < |pending|
        ensures pending[i] != h
      {
        assert pending[i] in writes;
      }
      nextHandle := nextHandle + 1;
      writes := writes[h := FsWrite(key, value, AwaitingExists)];
      pending := pending + [h];
      r := Ok(h);
    }

    /** putOne: `_validate` (getInfoHash of the value, then the comparison with
        the key), then _doPut. Without a value, getInfoHash of undefined is
        asked, which fails like any other non-Buffer. */
    method PutOne(key: JsValue, value: JsValue) returns (r: Result<nat>)
      requires Valid()
      modifies this
      ensures Valid()
      ensures !value.Buf? ==> r == Err(DigestFailed) && unchanged(this)
      ensures value.Buf? && key != Str(digest(value.bytes)) ==>
                r == Err(KeyMismatch(digest(value.bytes))) && unchanged(this)
      ensures value.Buf? && key == Str(digest(value.bytes)) && old(closed) ==> r == Err(Closed) && unchanged(this)
      ensures value.Buf? && key == Str(digest(value.bytes)) && !old(closed) ==>
                && r == Ok(old(nextHandle))
                && pending == old(pending) + [r.value]
                && writes == old(writes)[r.value := FsWrite(key.s, value.bytes, AwaitingExists)]
                && files == old(files) && closed == old(closed)
                && nextHandle == old(nextHandle) + 1
    {
      match InfoHashOf(digest, value)
      case Err(e) => r := Err(e);
      case Ok(_) =>
        match MatchDigest(digest, key, value.bytes)
        case Fail(e) => r := Err(e);
        case Pass => r := DoPut(key.s, value.bytes);
    }

    /** fs.exists answers for promise `h`. An existing file rejects the promise
        with "value for this key already exists" and _save is never called; the
        `finally` then splices the promise out of `_pending`. Otherwise _save
        runs (None: still in flight). */
    method OnExists(h: nat) returns (result: Option<Result<bool>>)
      requires Valid() && h in writes && writes[h].state.AwaitingExists?
      modifies this
      ensures Valid()
      ensures files == old(files) && closed == old(closed) && nextHandle == old(nextHandle)
      ensures ShardPath(storage, old(writes)[h].key) in files ==>
                && result == Some(Err(AlreadyExists))
                && pending == SpliceOne(old(pending), IndexOf(old(pending), h))
                && writes == old(writes) - {h}
      ensures ShardPath(storage, old(writes)[h].key) !in files ==>
                && result == None
                && pending == old(pending)
                && writes == old(writes)[h := old(writes)[h].(state := AwaitingSave)]
    {
      var w := writes[h];
      if ShardPath(storage, w.key) in files {
        SpliceRemovesHandle(pending, h);
        pending := SpliceOne(pending, IndexOf(pending, h));
        writes := writes - {h};
        result := Some(Err(AlreadyExists));
      } else {
        writes := writes[h := w.(state := AwaitingSave)];
        result := None;
      }
    }

    /** _save's own fs.exists answers for promise `h`: the answer is kept, to
        be returned (negated) once mkdirp and writeFile are done. Another write
        of the same key may land in between, so the answer can be stale. */
    method OnSaveChecked(h: nat)
      requires Valid() && h in writes && writes[h].state.AwaitingSave?
      modifies this
      ensures Valid()
      ensures files == old(files) && closed == old(closed) && nextHandle == old(nextHandle)
      ensures pending == old(pending)
      ensures writes == old(writes)[h := old(writes)[h].(state := Writing(ShardPath(storage, old(writes)[h].key) in files))]
    {
      var w := writes[h];
      writes := writes[h := w.(state := Writing(ShardPath(storage, w.key) in files))];
    }

    /** writeFile finishes for promise `h` (`failed`: mkdirp or writeFile was
        refused): the promise settles with _save's answer, true when its own
        check found no file, and is spliced out of `_pending`. */
    method OnSaved(h: nat, failed: bool) returns (result: Result<bool>)
      requires Valid() && h in writes && writes[h].state.Writing?
      modifies this
      ensures Valid()
      ensures pending == SpliceOne(old(pending), IndexOf(old(pending), h))
      ensures h !in pending && writes == old(writes) - {h}
      ensures closed == old(closed) && nextHandle == old(nextHandle)
      ensures failed ==> result == Err(StoreFailure) && files == old(files)
      ensures !failed ==>
                var path := ShardPath(storage, old(writes)[h].key);
                && files == Save(old(files), path, old(writes)[h].value).0
                && result == Ok(!old(writes)[h].state.existed)
    {
      var w := writes[h];
      var rest := SpliceOne(pending, IndexOf(pending, h));
      SpliceRemovesHandle(pending, h);
      assert forall x :: x in writes - {h} <==> x in rest;
      pending, writes := rest, writes - {h};
      if failed {
        result := Err(StoreFailure);
      } else {
        files := Save(files, ShardPath(storage, w.key), w.value).0;
        result := Ok(!w.state.existed);
      }
    }

    /** close: sets `_closed`; later puts are rejected. */
    method Close()
      requires Valid()
      modifies this
      ensures Valid() && closed
      ensures files == old(files) && pending == old(pending) && writes == old(writes)
      ensures nextHandle == old(nextHandle)
    {
      closed := true;
    }

    /** getMany: reads each key's file; one answer per key, in order, undefined
        (None) where the read failed. Read i fails when i is in `failing`. */
    method GetMany(keys: seq<string>, failing: set<nat>) returns (vals: seq<Option<Bytes>>)
      ensures |vals| == |keys|
      ensures forall i :: 0 <= i < |keys| ==>
                (vals[i].Some? <==> i !in failing && ShardPath(storage, keys[i]) in files)
      ensures forall i :: 0 <= i < |keys| && vals[i].Some? ==> vals[i].value == files[ShardPath(storage, keys[i])]
    {
      var outcomes := seq(|keys|, i requires 0 <= i < |keys| reads this =>
        var path := ShardPath(storage, keys[i]);
        if i in failing || path !in files then Err(NotFound) else Ok(files[path]));
      vals := SettleValues(outcomes);
    }
  }

  /** Two puts of one absent key race: index.js does not coalesce them, both
      pass `_doPut`'s check, and both `_save`s check before either writes, so
      both report that they created the file. */
  method RacingWritesBothCreate(storage: string, digest: Bytes -> InfoHash, value: Bytes)
    returns (first: Result<bool>, second: Result<bool>, stored: map<string, Bytes>)
    ensures first == Ok(true) && second == Ok(true)
    ensures ShardPath(storage, digest(value)) in stored && stored[ShardPath(storage, digest(value))] == value
  {
    var k := new FsKeeper(storage, map[], digest);
    var key, path := Str(digest(value)), ShardPath(storage, digest(value));
    var h1 := k.PutOne(key, Buf(value));
    var h2 := k.PutOne(key, Buf(value));
    assert h1 == Ok(0) && h2 == Ok(1);
    assert k.files == map[] && k.writes.Keys == {0, 1};
    assert k.writes[0] == k.writes[1] == FsWrite(digest(value), value, AwaitingExists);
    var _ := k.OnExists(0);
    var _ := k.OnExists(1);
    assert k.files == map[] && k.writes[0].state.AwaitingSave? && k.writes[1].state.AwaitingSave?;
    k.OnSaveChecked(0);
    k.OnSaveChecked(1);
    assert k.writes[0].state == k.writes[1].state == Writing(false);
    first := k.OnSaved(0, false);
    assert k.writes[1] == FsWrite(digest(value), value, Writing(false));
    second := k.OnSaved(1, false);
    stored := k.files;
  }
}
