/** The Keeper of src/index.js: a content-addressed front to a key/value store
    that coalesces concurrent writes of one key and drains them on close.

    The JavaScript runs on one event loop, so each synchronous stretch of a
    promise chain is one atomic step. `_doPut`'s chain has three: the call
    itself (which asks the store whether the key exists), the store's answer
    to that question (which may ask the store to put the value), and the
    store's answer to the put. The state of a Keeper is the `State` value
    below; each step is a pure function on it, and the class `Keeper` runs the
    same steps on its fields. `calls` records every call the write path,
    removal and close make on the backing store. */
module Keeper {
  import opened Common
  import opened Settle
  import opened Validation
  import opened Store

  /** Where the promise chain of one `_doPut` stands. */
  datatype WriteState =
    | Checking                    // waiting for the store's answer to `get(key)`
    | Saving                      // the key was absent; waiting for the answer to `put`
    | Failed(reason: KeeperError) // the put failed: the chain rejected, the entry stays

  /** The promise held in `_pending[key]`: its identity, the value it writes, its state. */
  datatype Write = Write(handle: nat, value: Bytes, state: WriteState)

  /** A call made on the backing store. */
  datatype StoreCall =
    | StoreGet(key: string)
    | StorePut(key: string, value: Bytes)
    | StoreDel(key: string)
    | StoreBatch(ops: seq<BatchOp>)
    | StoreClose

  /** What a put hands its caller: a rejected promise, `Promise.resolve(key)`,
      or the in-flight promise registered for the key. */
  datatype PutReply = Rejected(error: KeeperError) | Resolved(key: string) | Awaiting(handle: nat)

  datatype State = State(
    db: map<string, Bytes>,         // the backing store's contents
    pending: map<string, Write>,    // _pending
    done: set<string>,              // the keys k with _done[k] === true
    closed: bool,                   // _closed
    dbClosed: bool,                 // the backing store has been closed
    nextHandle: nat,                // identity of the next promise _doPut creates
    calls: seq<StoreCall>)          // the calls made on the backing store

  /** A new Keeper over a store holding `db`. */
  function Init(db: map<string, Bytes>): State {
    State(db, map[], {}, false, false, 0, [])
  }

  /** How many times the store was asked to put `key`. */
  function PutCount(calls: seq<StoreCall>, key: string): nat
    decreases |calls|
  {
    if calls == [] then 0
    else
      var last := calls[|calls| - 1];
      PutCount(calls[..|calls| - 1], key) + (if last.StorePut? && last.key == key then 1 else 0)
  }

  lemma PutCountSnoc(calls: seq<StoreCall>, c: StoreCall)
    ensures forall k :: PutCount(calls + [c], k) == PutCount(calls, k) + (if c.StorePut? && c.key == k then 1 else 0)
  {
    assert (calls + [c])[..|calls|] == calls;
  }

  /** No write of the Keeper is still waiting for the store. */
  predicate Drained(s: State) {
    forall k | k in s.pending :: s.pending[k].state.Failed?
  }

  /** The Keeper's invariant: no key both pending and done, one distinct handle
      per pending key, the store closed only once closed and drained, and at
      most one store put per key, issued exactly when its write left Checking. */
  ghost predicate Inv(s: State) {
    && s.pending.Keys !! s.done
    && (forall k :: k in s.pending ==> s.pending[k].handle < s.nextHandle)
    && (forall k1, k2 :: k1 in s.pending && k2 in s.pending && k1 != k2 ==>
          s.pending[k1].handle != s.pending[k2].handle)
    && (s.dbClosed ==> s.closed && Drained(s))
    && (forall k :: PutCount(s.calls, k) <= 1)
    && (forall k :: PutCount(s.calls, k) == 1 ==> k in s.pending || k in s.done)
    && (forall k :: k in s.pending ==> (PutCount(s.calls, k) == 0 <==> s.pending[k].state.Checking?))
  }

  /** Content addressing: every stored and every pending value sits under its digest. */
  ghost predicate Addressed(digest: Bytes -> InfoHash, s: State) {
    && (forall k :: k in s.db ==> digest(s.db[k]) == k)
    && (forall k :: k in s.pending ==> digest(s.pending[k].value) == k)
  }

  lemma InitInv(db: map<string, Bytes>)
    ensures Inv(Init(db))
  {
  }

  // ---------------------------------------------------------------- _doPut

  /** The synchronous part of `_doPut(key, value)`. */
  function DoPutStep(s: State, key: string, value: Bytes): (r: (State, PutReply))
    // never a synchronous store write, never a change to _done or the flags
    ensures r.0.db == s.db && r.0.done == s.done && r.0.closed == s.closed && r.0.dbClosed == s.dbClosed
    // closed: rejected with "Keeper is closed", nothing touched
    ensures s.closed ==> r == (s, Rejected(Closed))
    // done: resolves to the key with no store read or write
    ensures r.1.Resolved? <==> !s.closed && key in s.done
    ensures r.1.Resolved? ==> r.0 == s && r.1.key == key
    // pending: the caller gets the very handle held in _pending
    ensures r.1.Awaiting? ==> key in r.0.pending && r.1.handle == r.0.pending[key].handle
    ensures key in s.pending ==> r.0.pending == s.pending
    ensures key in s.pending && !s.closed && key !in s.done ==> r == (s, Awaiting(s.pending[key].handle))
    // otherwise exactly one new handle is registered and the store asked whether the key exists
    ensures r.0 != s <==> !s.closed && key !in s.done && key !in s.pending
    ensures r.0 != s ==>
              && r.0.pending == s.pending[key := Write(s.nextHandle, value, Checking)]
              && r.0.calls == s.calls + [StoreGet(key)]
              && r.0.nextHandle == s.nextHandle + 1
              && r.1 == Awaiting(s.nextHandle)
  {
    if s.closed then (s, Rejected(Closed))
    else if key in s.done then (s, Resolved(key))
    else if key in s.pending then (s, Awaiting(s.pending[key].handle))
    else
      var w := Write(s.nextHandle, value, Checking);
      (s.(pending := s.pending[key := w], nextHandle := s.nextHandle + 1, calls := s.calls + [StoreGet(key)]),
       Awaiting(s.nextHandle))
  }

  /** `get(key)` on the store; `failed` stands for an I/O error of the store. */
  function ReadKey(db: map<string, Bytes>, key: string, failed: bool): (r: Result<Bytes>)
    ensures r.Ok? <==> !failed && key in db
    ensures r.Ok? ==> r.value == db[key]
    ensures !failed && key !in db ==> r == Err(NotFound)
  {
    if failed then Err(StoreFailure)
    else if key !in db then Err(NotFound)
    else Ok(db[key])
  }

  /** `_exists`: true when `_getOne` succeeds; every error, not only NotFound, counts as absent. */
  function Exists(db: map<string, Bytes>, key: string, getFailed: bool): (b: bool)
    ensures b <==> key in db && !getFailed
  {
    ReadKey(db, key, getFailed).Ok?
  }

  /** The store answers `_exists(key)`: an existing key finishes the write
      without a put (None means the chain is still waiting for the put). */
  function ExistsStep(s: State, key: string, getFailed: bool): (r: (State, Option<Result<string>>))
    requires key in s.pending && s.pending[key].state.Checking?
    ensures r.0.db == s.db && r.0.closed == s.closed && r.0.dbClosed == s.dbClosed && r.0.nextHandle == s.nextHandle
    // the store is asked to put the value exactly when _exists said no
    ensures r.0.calls == s.calls + [StorePut(key, s.pending[key].value)] <==> !Exists(s.db, key, getFailed)
    ensures Exists(s.db, key, getFailed) ==> r.0.calls == s.calls
    ensures Exists(s.db, key, getFailed) ==>
              && r.1 == Some(Ok(key))
              && r.0.pending == s.pending - {key} && r.0.done == s.done + {key}
    ensures !Exists(s.db, key, getFailed) ==>
              && r.1 == None
              && r.0.pending == s.pending[key := s.pending[key].(state := Saving)] && r.0.done == s.done
  {
    var w := s.pending[key];
    if Exists(s.db, key, getFailed) then
      (s.(pending := s.pending - {key}, done := s.done + {key}), Some(Ok(key)))
    else
      (s.(pending := s.pending[key := w.(state := Saving)], calls := s.calls + [StorePut(key, w.value)]), None)
  }

  /** The store answers the put: on success the key moves from _pending to
      _done and the promise resolves to the key; on failure the promise rejects
      and, with no catch on the chain, the entry stays in _pending. */
  function SavedStep(s: State, key: string, putFailed: bool): (r: (State, Result<string>))
    requires key in s.pending && s.pending[key].state.Saving?
    ensures r.0.calls == s.calls && r.0.closed == s.closed && r.0.dbClosed == s.dbClosed && r.0.nextHandle == s.nextHandle
    ensures r.1.Ok? <==> !putFailed
    ensures r.1.Ok? ==>
              && r.1.value == key
              && r.0.db == s.db[key := s.pending[key].value]
              && r.0.pending == s.pending - {key} && r.0.done == s.done + {key}
    ensures r.1.Err? ==>
              && r.0.db == s.db && r.0.done == s.done
              && r.0.pending == s.pending[key := s.pending[key].(state := Failed(StoreFailure))]
  {
    var w := s.pending[key];
    if putFailed then
      (s.(pending := s.pending[key := w.(state := Failed(StoreFailure))]), Err(StoreFailure))
    else
      (s.(db := s.db[key := w.value], pending := s.pending - {key}, done := s.done + {key}), Ok(key))
  }

  // ---------------------------------------------------------------- close

  /** `close()` up to its first await: `_closed = true`. */
  function CloseStep(s: State): (t: State)
    ensures t.closed && t == s.(closed := true)
  {
    s.(closed := true)
  }

  /** The rest of `close()`, once every handle it waits for has settled: the
      store is closed (again, on a second close). */
  function FinishCloseStep(s: State): (r: (State, bool))
    ensures r.1 <==> s.closed && Drained(s)
    ensures r.1 ==> r.0 == s.(dbClosed := true, calls := s.calls + [StoreClose])
    ensures !r.1 ==> r.0 == s
  {
    if s.closed && Drained(s) then (s.(dbClosed := true, calls := s.calls + [StoreClose]), true)
    else (s, false)
  }

  // ---------------------------------------------------------------- removal

  /** `removeOne(key)`: deletes from the store; _pending and _done are untouched. */
  function RemoveOneStep(s: State, key: string): (t: State)
    ensures t.db == s.db - {key} && t.calls == s.calls + [StoreDel(key)]
    ensures t.pending == s.pending && t.done == s.done && t.closed == s.closed && t.dbClosed == s.dbClosed
    ensures t.nextHandle == s.nextHandle
  {
    s.(db := s.db - {key}, calls := s.calls + [StoreDel(key)])
  }

  /** `removeMany(keys)`: one batch of deletes; _pending and _done are untouched. */
  function RemoveManyStep(s: State, keys: seq<string>): (t: State)
    ensures t.db == s.db - (set k | k in keys) && t.calls == s.calls + [StoreBatch(RemoveBatch(keys))]
    ensures t.pending == s.pending && t.done == s.done && t.closed == s.closed && t.dbClosed == s.dbClosed
    ensures t.nextHandle == s.nextHandle
  {
    RemoveBatchDeletes(s.db, keys);
    s.(db := ApplyBatch(s.db, RemoveBatch(keys)), calls := s.calls + [StoreBatch(RemoveBatch(keys))])
  }

  // ---------------------------------------------------------------- runs

  /** One step of the event loop touching the Keeper. */
  datatype Event =
    | DoPut(key: string, value: Bytes)
    | ExistsAnswer(key: string, getFailed: bool)
    | SaveAnswer(key: string, putFailed: bool)
    | BeginClose
    | Drain
    | RemoveOne(key: string)
    | RemoveMany(keys: seq<string>)

  /** The state after one event; an answer for a write not waiting for it changes nothing. */
  function Next(s: State, e: Event): State {
    match e
    case DoPut(k, v) => DoPutStep(s, k, v).0
    case ExistsAnswer(k, f) =>
      if k in s.pending && s.pending[k].state.Checking? then ExistsStep(s, k, f).0 else s
    case SaveAnswer(k, f) =>
      if k in s.pending && s.pending[k].state.Saving? then SavedStep(s, k, f).0 else s
    case BeginClose => CloseStep(s)
    case Drain => FinishCloseStep(s).0
    case RemoveOne(k) => RemoveOneStep(s, k)
    case RemoveMany(ks) => RemoveManyStep(s, ks)
  }

  function Run(s: State, events: seq<Event>): State
    decreases |events|
  {
    if events == [] then s else Run(Next(s, events[0]), events[1..])
  }

  lemma DoPutPreservesInv(s: State, key: string, value: Bytes)
    requires Inv(s)
    ensures Inv(DoPutStep(s, key, value).0)
  {
    var t := DoPutStep(s, key, value).0;
    if t != s {
      PutCountSnoc(s.calls, StoreGet(key));
      assert PutCount(s.calls, key) == 0;
    }
  }

  lemma ExistsPreservesInv(s: State, key: string, getFailed: bool)
    requires Inv(s) && key in s.pending && s.pending[key].state.Checking?
    ensures Inv(ExistsStep(s, key, getFailed).0)
  {
    var t := ExistsStep(s, key, getFailed).0;
    if !Exists(s.db, key, getFailed) {
      PutCountSnoc(s.calls, StorePut(key, s.pending[key].value));
    }
    assert !s.dbClosed;
  }

  lemma SavedPreservesInv(s: State, key: string, putFailed: bool)
    requires Inv(s) && key in s.pending && s.pending[key].state.Saving?
    ensures Inv(SavedStep(s, key, putFailed).0)
  {
    assert !s.dbClosed;
  }

  /** Every step keeps the invariant. */
  lemma {:induction false} NextPreservesInv(s: State, e: Event)
    requires Inv(s)
    ensures Inv(Next(s, e))
  {
    match e
    case DoPut(k, v) => DoPutPreservesInv(s, k, v);
    case ExistsAnswer(k, f) =>
      if k in s.pending && s.pending[k].state.Checking? { ExistsPreservesInv(s, k, f); }
    case SaveAnswer(k, f) =>
      if k in s.pending && s.pending[k].state.Saving? { SavedPreservesInv(s, k, f); }
    case BeginClose =>
    case Drain =>
      PutCountSnoc(s.calls, StoreClose);
    case RemoveOne(k) =>
      PutCountSnoc(s.calls, StoreDel(k));
    case RemoveMany(ks) =>
      PutCountSnoc(s.calls, StoreBatch(RemoveBatch(ks)));
  }

  lemma {:induction false} RunPreservesInv(s: State, events: seq<Event>)
    requires Inv(s)
    ensures Inv(Run(s, events))
    decreases |events|
  {
    if events != [] {
      NextPreservesInv(s, events[0]);
      RunPreservesInv(Next(s, events[0]), events[1..]);
    }
  }

  /** Over the whole life of a Keeper, whatever the interleaving of puts,
      answers, removals and closes, the store is asked at most once to put any
      one key: concurrent and repeated puts of a key collapse into one write. */
  lemma {:induction false} OneStoreWritePerKey(db: map<string, Bytes>, events: seq<Event>, key: string)
    ensures PutCount(Run(Init(db), events).calls, key) <= 1
  {
    InitInv(db);
    RunPreservesInv(Init(db), events);
  }

  /** The store is closed only after close began and no write is in flight;
      no key is ever both pending and done. */
  lemma {:induction false} StoreClosedOnlyWhenDrained(db: map<string, Bytes>, events: seq<Event>)
    ensures var t := Run(Init(db), events);
            (t.dbClosed ==> t.closed && Drained(t)) && t.pending.Keys !! t.done
  {
    InitInv(db);
    RunPreservesInv(Init(db), events);
  }

  /** Once closed, a Keeper stays closed and no new write enters _pending. */
  lemma {:induction false} ClosedAdmitsNoWrite(s: State, events: seq<Event>)
    requires s.closed
    ensures Run(s, events).closed
    ensures Run(s, events).pending.Keys <= s.pending.Keys
    decreases |events|
  {
    if events != [] {
      ClosedAdmitsNoWrite(Next(s, events[0]), events[1..]);
    }
  }

  lemma {:induction false} NextPreservesAddressed(digest: Bytes -> InfoHash, s: State, e: Event)
    requires Addressed(digest, s)
    requires e.DoPut? ==> digest(e.value) == e.key
    ensures Addressed(digest, Next(s, e))
  {
    match e
    case DoPut(k, v) =>
    case ExistsAnswer(k, f) =>
    case SaveAnswer(k, f) =>
    case BeginClose =>
    case Drain =>
    case RemoveOne(k) =>
    case RemoveMany(ks) =>
  }

  /** A write reaches _doPut only through validation, so every value the store
      ever holds through the Keeper sits under its own digest. */
  lemma {:induction false} RunPreservesAddressed(digest: Bytes -> InfoHash, s: State, events: seq<Event>)
    requires Addressed(digest, s)
    requires forall i :: 0 <= i < |events| && events[i].DoPut? ==> digest(events[i].value) == events[i].key
    ensures Addressed(digest, Run(s, events))
    decreases |events|
  {
    if events != [] {
      NextPreservesAddressed(digest, s, events[0]);
      RunPreservesAddressed(digest, Next(s, events[0]), events[1..]);
    }
  }

  /** The three steps of one uncontended write of a key the store lacks. */
  function WriteEvents(key: string, value: Bytes): seq<Event> {
    [DoPut(key, value), ExistsAnswer(key, false), SaveAnswer(key, false)]
  }

  /** Putting the same data twice: the first put stores the value with one
      store put; the second resolves to the key with no store call at all. */
  lemma {:induction false} PutSameDataTwice(db: map<string, Bytes>, key: string, value: Bytes)
    requires key !in db
    ensures var s := Run(Init(db), WriteEvents(key, value));
      && s.db == db[key := value] && ReadKey(s.db, key, false) == Ok(value)
      && key in s.done && key !in s.pending && PutCount(s.calls, key) == 1
      && DoPutStep(s, key, value) == (s, Resolved(key))
  {
    var es := WriteEvents(key, value);
    var s0 := Init(db);
    var s1 := Next(s0, es[0]);
    var s2 := Next(s1, es[1]);
    var s3 := Next(s2, es[2]);
    assert Run(s0, es) == Run(s1, es[1..]);
    assert Run(s1, es[1..]) == Run(s2, es[2..]);
    assert Run(s2, es[2..]) == Run(s3, []);
    PutCountSnoc(s0.calls, StoreGet(key));
    PutCountSnoc(s1.calls, StorePut(key, value));
  }

  /** removeOne leaves _done alone, so a put after a removal resolves to the
      key without writing: the store stays without the value. */
  lemma {:induction false} PutAfterRemoveSkipsStore(db: map<string, Bytes>, key: string, value: Bytes)
    requires key !in db
    ensures var s := RemoveOneStep(Run(Init(db), WriteEvents(key, value)), key);
      && key !in s.db
      && DoPutStep(s, key, value) == (s, Resolved(key))
  {
    PutSameDataTwice(db, key, value);
  }

  // ---------------------------------------------------------------- putOne / putMany

  /** putOne after its awaits: a request that failed normalisation or
      validation is rejected with nothing touched; a valid one reaches _doPut. */
  function PutStep(s: State, req: Result<(string, Bytes)>): (r: (State, PutReply))
    ensures r.0.db == s.db && r.0.done == s.done && r.0.closed == s.closed
    ensures req.Err? ==> r == (s, Rejected(req.error))
    ensures r.1.Resolved? ==> req.Ok? && r.1.key == req.value.0 && r.0 == s
    ensures r.0 != s ==>
              && req.Ok? && req.value.0 !in s.pending
              && r.0.pending == s.pending[req.value.0 := Write(s.nextHandle, req.value.1, Checking)]
  {
    match req
    case Err(e) => (s, Rejected(e))
    case Ok((key, value)) => DoPutStep(s, key, value)
  }

  /** A burst of puts, all started before any store answer arrives. */
  function Burst(s: State, reqs: seq<Result<(string, Bytes)>>): (r: (State, seq<PutReply>))
    ensures |r.1| == |reqs|
    decreases |reqs|
  {
    if reqs == [] then (s, [])
    else
      var before := Burst(s, reqs[..|reqs| - 1]);
      var last := PutStep(before.0, reqs[|reqs| - 1]);
      (last.0, before.1 + [last.1])
  }

  /** The reply each request of a burst gets, in terms of the state before and
      after the burst, and what the burst leaves unchanged. */
  lemma {:induction false} BurstReplies(s: State, reqs: seq<Result<(string, Bytes)>>)
    ensures var (t, rs) := Burst(s, reqs);
      && |rs| == |reqs|
      && t.db == s.db && t.done == s.done && t.closed == s.closed && t.dbClosed == s.dbClosed
      && (forall k :: k in s.pending ==> k in t.pending && t.pending[k] == s.pending[k])
      && (forall i :: 0 <= i < |reqs| && reqs[i].Err? ==> rs[i] == Rejected(reqs[i].error))
      && (forall i :: 0 <= i < |reqs| && reqs[i].Ok? && s.closed ==> rs[i] == Rejected(Closed))
      && (forall i :: 0 <= i < |reqs| && reqs[i].Ok? && !s.closed && reqs[i].value.0 in s.done ==>
            rs[i] == Resolved(reqs[i].value.0))
      && (forall i :: 0 <= i < |reqs| && reqs[i].Ok? && !s.closed && reqs[i].value.0 !in s.done ==>
            reqs[i].value.0 in t.pending && rs[i] == Awaiting(t.pending[reqs[i].value.0].handle))
    decreases |reqs|
  {
    if reqs != [] {
      var n := |reqs| - 1;
      BurstReplies(s, reqs[..n]);
      var (t, rs) := Burst(s, reqs[..n]);
      var (u, r) := PutStep(t, reqs[n]);
      assert Burst(s, reqs) == (u, rs + [r]);
      forall i | 0 <= i < n
        ensures reqs[i] == reqs[..n][i]
      {
      }
    }
  }

  /** Coalescing: every put of one key in a burst gets the same reply, so N
      concurrent callers all await the one handle registered for the key. */
  lemma {:induction false} BurstCoalesces(s: State, reqs: seq<Result<(string, Bytes)>>, i: int, j: int)
    requires 0 <= i < |reqs| && 0 <= j < |reqs|
    requires reqs[i].Ok? && reqs[j].Ok? && reqs[i].value.0 == reqs[j].value.0
    ensures Burst(s, reqs).1[i] == Burst(s, reqs).1[j]
  {
    BurstReplies(s, reqs);
  }

  /** A burst registers each fresh key of its valid requests once, in state
      Checking, and asks the store to put nothing. */
  lemma {:induction false} BurstRegistersOnce(s: State, reqs: seq<Result<(string, Bytes)>>)
    ensures var t := Burst(s, reqs).0;
      && (forall k :: PutCount(t.calls, k) == PutCount(s.calls, k))
      && (forall k :: k in t.pending && k !in s.pending ==> t.pending[k].state.Checking?)
      && (forall k :: k in t.pending && k !in s.pending ==>
            !s.closed && k !in s.done && exists i :: 0 <= i < |reqs| && reqs[i].Ok? && reqs[i].value.0 == k)
    decreases |reqs|
  {
    if reqs != [] {
      var n := |reqs| - 1;
      BurstRegistersOnce(s, reqs[..n]);
      BurstReplies(s, reqs[..n]);
      var (t, rs) := Burst(s, reqs[..n]);
      var (u, r) := PutStep(t, reqs[n]);
      assert Burst(s, reqs).0 == u;
      if reqs[n].Ok? && u != t {
        PutCountSnoc(t.calls, StoreGet(reqs[n].value.0));
      }
      forall k | k in u.pending && k !in s.pending
        ensures exists i :: 0 <= i < |reqs| && reqs[i].Ok? && reqs[i].value.0 == k
      {
        if k in t.pending {
          var i :| 0 <= i < n && reqs[..n][i].Ok? && reqs[..n][i].value.0 == k;
          assert reqs[i] == reqs[..n][i];
        } else {
          assert reqs[n].Ok? && reqs[n].value.0 == k;
        }
      }
    }
  }

  /** The validated requests of putMany: `arr.map(this.putOne, this)` passes each
      element with its index as the second argument. */
  function ManyRequests(digest: Bytes -> InfoHash, items: seq<JsValue>): (reqs: seq<Result<(string, Bytes)>>)
    ensures |reqs| == |items|
    // a Buffer element is put under its own digest
    ensures forall i :: 0 <= i < |items| && items[i].Buf? ==>
              reqs[i] == Ok((digest(items[i].bytes), items[i].bytes))
    // a string element gets the index, not a Buffer, as its value: always rejected
    ensures forall i :: 0 <= i < |items| && items[i].Str? ==> reqs[i] == Err(InvalidType("Buffer"))
    ensures forall i :: 0 <= i < |items| && IsNullish(items[i]) ==> reqs[i] == Err(InvalidType("Object"))
    ensures forall i :: 0 <= i < |items| && items[i].Other? ==> reqs[i] == Err(DigestFailed)
    // an options element does not see its index
    ensures forall i :: 0 <= i < |items| && items[i].Obj? ==> reqs[i] == PutRequest(digest, items[i], Undefined)
    ensures forall i :: 0 <= i < |items| && reqs[i].Ok? ==> reqs[i].value.0 == digest(reqs[i].value.1)
  {
    seq(|items|, i requires 0 <= i < |items| => PutRequest(digest, items[i], Other))
  }

  /** The arguments of `put`: an array goes to putMany, anything else to putOne. */
  datatype PutCall = PutArray(items: seq<JsValue>) | PutArgs(first: JsValue, second: JsValue)

  function PutRequests(digest: Bytes -> InfoHash, call: PutCall): (reqs: seq<Result<(string, Bytes)>>)
    ensures call.PutArray? ==> reqs == ManyRequests(digest, call.items)
    ensures call.PutArgs? ==> reqs == [PutRequest(digest, call.first, call.second)]
    ensures forall i :: 0 <= i < |reqs| && reqs[i].Ok? ==> reqs[i].value.0 == digest(reqs[i].value.1)
  {
    match call
    case PutArray(items) => ManyRequests(digest, items)
    case PutArgs(first, second) => [PutRequest(digest, first, second)]
  }

  // ---------------------------------------------------------------- the class

  class Keeper {
    const digest: Bytes -> InfoHash
    var db: map<string, Bytes>
    var pending: map<string, Write>
    var done: set<string>
    var closed: bool
    var dbClosed: bool
    var nextHandle: nat
    ghost var calls: seq<StoreCall>

    ghost function S(): State
      reads this
    {
      State(db, pending, done, closed, dbClosed, nextHandle, calls)
    }

    ghost predicate Valid()
      reads this
    {
      Inv(S())
    }

    /** `new Keeper({ db })`: empty _pending and _done. */
    constructor (store: map<string, Bytes>, digest: Bytes -> InfoHash)
      ensures Valid() && S() == Init(store) && this.digest == digest
    {
      this.digest := digest;
      db, pending, done := store, map[], {};
      closed, dbClosed, nextHandle := false, false, 0;
      calls := [];
    }

    method DoPut(key: string, value: Bytes) returns (reply: PutReply)
      requires Valid()
      modifies this
      ensures Valid()
      ensures (S(), reply) == DoPutStep(old(S()), key, value)
      ensures digest(value) == key && old(Addressed(digest, S())) ==> Addressed(digest, S())
    {
      ghost var s := S();
      DoPutPreservesInv(s, key, value);
      if closed {
        return Rejected(Closed);
      }
      if key in done {
        return Resolved(key);
      }
      if key in pending {
        return Awaiting(pending[key].handle);
      }
      calls := calls + [StoreGet(key)];
      pending := pending[key := Write(nextHandle, value, Checking)];
      reply := Awaiting(nextHandle);
      nextHandle := nextHandle + 1;
      assert S() == DoPutStep(s, key, value).0;
    }

    /** putOne: shape dispatch, _normalizeOptions and _validate, then _doPut. */
    method PutOne(first: JsValue, second: JsValue) returns (reply: PutReply)
      requires Valid()
      modifies this
      ensures Valid()
      ensures (S(), reply) == PutStep(old(S()), PutRequest(digest, first, second))
      ensures old(Addressed(digest, S())) ==> Addressed(digest, S())
    {
      var req := PutRequest(digest, first, second);
      match req
      case Err(e) => reply := Rejected(e);
      case Ok((key, value)) => reply := DoPut(key, value);
    }

    /** putMany's kick-off: one putOne per element, in order. The per-element
        answers, once settled, are joined by SettleValues. */
    method PutMany(items: seq<JsValue>) returns (replies: seq<PutReply>)
      requires Valid()
      modifies this
      ensures Valid()
      ensures (S(), replies) == Burst(old(S()), ManyRequests(digest, items))
      ensures old(Addressed(digest, S())) ==> Addressed(digest, S())
    {
      ghost var s := S();
      ghost var reqs := ManyRequests(digest, items);
      replies := [];
      for i := 0 to |items|
        invariant Valid()
        invariant (S(), replies) == Burst(s, reqs[..i])
        invariant Addressed(digest, s) ==> Addressed(digest, S())
      {
        var reply := PutOne(items[i], Other);
        assert reqs[..i + 1][..i] == reqs[..i];
        replies := replies + [reply];
      }
      assert reqs[..|items|] == reqs;
    }

    /** put: an array of items goes to putMany, anything else to putOne. */
    method Put(call: PutCall) returns (replies: seq<PutReply>)
      requires Valid()
      modifies this
      ensures Valid()
      ensures (S(), replies) == Burst(old(S()), PutRequests(digest, call))
      ensures old(Addressed(digest, S())) ==> Addressed(digest, S())
    {
      match call
      case PutArray(items) =>
        replies := PutMany(items);
      case PutArgs(first, second) =>
        ghost var s := S();
        ghost var reqs := [PutRequest(digest, first, second)];
        var reply := PutOne(first, second);
        replies := [reply];
        assert reqs[..0] == [];
        assert Burst(s, reqs).0 == S();
        assert Burst(s, reqs).1 == replies;
    }

    /** The store answers `_exists(key)` for the write pending on `key`. */
    method OnExists(key: string, getFailed: bool) returns (result: Option<Result<string>>)
      requires Valid() && key in pending && pending[key].state.Checking?
      modifies this
      ensures Valid()
      ensures (S(), result) == ExistsStep(old(S()), key, getFailed)
      ensures old(Addressed(digest, S())) ==> Addressed(digest, S())
    {
      ghost var s := S();
      ExistsPreservesInv(s, key, getFailed);
      var w := pending[key];
      if !getFailed && key in db {
        pending := pending - {key};
        done := done + {key};
        result := Some(Ok(key));
      } else {
        calls := calls + [StorePut(key, w.value)];
        pending := pending[key := w.(state := Saving)];
        result := None;
      }
      assert S() == ExistsStep(s, key, getFailed).0;
    }

    /** The store answers the put issued for the write pending on `key`. */
    method OnSaved(key: string, putFailed: bool) returns (result: Result<string>)
      requires Valid() && key in pending && pending[key].state.Saving?
      modifies this
      ensures Valid()
      ensures (S(), result) == SavedStep(old(S()), key, putFailed)
      ensures old(Addressed(digest, S())) ==> Addressed(digest, S())
    {
      ghost var s := S();
      SavedPreservesInv(s, key, putFailed);
      var w := pending[key];
      if putFailed {
        pending := pending[key := w.(state := Failed(StoreFailure))];
        result := Err(StoreFailure);
      } else {
        db := db[key := w.value];
        pending := pending - {key};
        done := done + {key};
        result := Ok(key);
      }
      assert S() == SavedStep(s, key, putFailed).0;
    }

    /** close() up to its await: sets _closed and collects the pending handles
        it will wait for. No handle can join them afterwards (ClosedAdmitsNoWrite). */
    method Close() returns (awaited: seq<Write>)
      requires Valid()
      modifies this
      ensures Valid()
      ensures S() == CloseStep(old(S()))
      ensures |awaited| == |pending|
      ensures forall w :: w in awaited <==> w in pending.Values
    {
      closed := true;
      ghost var keys;
      awaited, keys := GetValues(pending);
      forall w | w in pending.Values
        ensures w in awaited
      {
        var k :| k in pending && pending[k] == w;
        var i :| 0 <= i < |keys| && keys[i] == k;
      }
    }

    /** close() after `allSettled`: closes the store once nothing is in flight. */
    method FinishClose() returns (ok: bool)
      requires Valid()
      modifies this
      ensures Valid()
      ensures (S(), ok) == FinishCloseStep(old(S()))
      ensures old(Addressed(digest, S())) ==> Addressed(digest, S())
    {
      ok := closed && forall k | k in pending :: pending[k].state.Failed?;
      if ok {
        PutCountSnoc(calls, StoreClose);
        dbClosed := true;
        calls := calls + [StoreClose];
      }
    }

    /** getMany: one answer per key, in order; undefined (None) where the read
        failed. Read i fails with a store error when i is in `failing`. */
    method GetMany(keys: seq<string>, failing: set<nat>) returns (vals: seq<Option<Bytes>>)
      ensures |vals| == |keys|
      ensures forall i :: 0 <= i < |keys| ==> (vals[i].Some? <==> i !in failing && keys[i] in db)
      ensures forall i :: 0 <= i < |keys| && vals[i].Some? ==> vals[i].value == db[keys[i]]
    {
      var outcomes := seq(|keys|, i requires 0 <= i < |keys| reads this => ReadKey(db, keys[i], i in failing));
      vals := SettleValues(outcomes);
    }

    method RemoveOne(key: string)
      requires Valid()
      modifies this
      ensures Valid()
      ensures S() == RemoveOneStep(old(S()), key)
      ensures old(Addressed(digest, S())) ==> Addressed(digest, S())
    {
      PutCountSnoc(calls, StoreDel(key));
      db := db - {key};
      calls := calls + [StoreDel(key)];
    }

    method RemoveMany(keys: seq<string>)
      requires Valid()
      modifies this
      ensures Valid()
      ensures S() == RemoveManyStep(old(S()), keys)
      ensures old(Addressed(digest, S())) ==> Addressed(digest, S())
    {
      var batch := RemoveBatch(keys);
      PutCountSnoc(calls, StoreBatch(batch));
      RemoveBatchDeletes(db, keys);
      db := ApplyBatch(db, batch);
      calls := calls + [StoreBatch(batch)];
    }

    /** clear: removeMany of the keys the store's read stream yields; over a
        full read stream the store ends empty. */
    method Clear(data: seq<Entry>)
      requires Valid()
      modifies this
      ensures Valid()
      ensures S() == RemoveManyStep(old(S()), GetAllKeys(data))
      ensures Enumerates(data, old(db)) ==> db == map[]
    {
      var keys := GetAllKeys(data);
      if Enumerates(data, db) {
        EnumeratedKeysAndValues(data, db);
      }
      RemoveMany(keys);
    }
  }
}
