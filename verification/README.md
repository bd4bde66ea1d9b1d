# offline-keeper in Dafny

A Dafny model of the Keeper of offline-keeper. The Keeper is a content-addressed
front to a key/value store: a value may only be stored under the key that is its
own info-hash. When the caller gives no key, the key is derived from the value.
Concurrent puts of one key collapse into a single store write. `close` waits for
in-flight writes before it closes the store.

Two revisions are modelled:

- `src/index.js`, the current Keeper over a LevelUP-style store. It is modelled
  by the modules `Common`, `Settle`, `Validation`, `Store` and `Keeper`.
- `index.js`, the older Keeper over a directory tree. It is modelled by the
  module `FsKeeper`.

Modelling choices:

- **Digest.** The digest (`getInfoHash` of `@tradle/utils`) is a parameter
  `digest: Bytes -> InfoHash`, where an `InfoHash` is a 40-character lower-case
  hexadecimal string, like the keys in test/index.js. Given anything that is not
  a Buffer, it fails with `DigestFailed`. `@tradle/utils` is not part of this
  model.
- **JavaScript values.** The `JsValue` datatype stands for the values a caller
  passes in: undefined, null, strings, Buffers, objects and other primitives.
  This keeps putOne's dispatch on the argument shape, typeforce's checks and
  `{ ...options, key }` as the source has them.
- **State as a value.** The state of a current Keeper is the `State` datatype:
  the store's contents, `_pending`, `_done`, `_closed`, whether the store has
  been closed, and a log of the calls made on the store. The JavaScript runs on
  one event loop, so every synchronous stretch of a promise chain is one step,
  written as a pure function on `State`. `_doPut`'s chain has three steps:
  - `DoPutStep`: the call itself, which asks the store `get(key)`;
  - `ExistsStep`: the answer to that `get`, which may issue `put`;
  - `SavedStep`: the answer to the `put`.
- **The class.** The class `Keeper.Keeper` keeps the same state in fields.
  Each of its methods is proved to perform exactly the step function for that
  operation. `Run` applies any interleaving of events, and the lemmas over `Run`
  state the invariants for every such interleaving.
- **Store failures.** A failing store answer is a boolean parameter of the step
  that receives it.
- **Read streams.** The store's read stream is a sequence of entries.

Where the code differs from what its tests expect, the model follows the code.
The list also records code behaviour that is easy to miss:

- `removeOne` and `removeMany` leave `_pending` and `_done` untouched. So a put
  after a delete resolves from `_done` and writes nothing (`PutAfterRemoveSkipsStore`).
  The test "put after delete writes to storage" (test/index.js:16-37) expects a
  fresh write.
- A failed store put leaves its entry in `_pending` as a rejected promise,
  because the chain has no catch. Later puts of that key get the same rejected
  handle (`SavedStep` keeps the entry's handle and value), and no retry happens.
- Every call to `close` closes the store again once nothing is in flight, so a
  second close is not a no-op.
- The constructor checks only that `db` is an object. It does not reject a
  store that is not binary-safe, which the test "invalid db encoding"
  (test/index.js:39-47) expects it to do.
- The older revision fails a put whose file already exists ("value for this key
  already exists in Keeper"). The current one treats the existing key as
  success.

## Model

| member | source | states |
|---|---|---|
| `Common.Message` | src/index.js:126-128 | a text is fixed exactly for the mismatch, closed and already-exists errors: the mismatch message ends with the expected info-hash, the closed message is "Keeper is closed", and the older revision's duplicate message is "value for this key already exists in Keeper"; other errors carry the failing library's own text |
| `Settle.AllSettled` | src/index.js:231-244 | one entry per promise, in input order: `Value(v)` for a fulfilled promise, `Reason(e)` for a rejected one |
| `Settle.PluckValue` | src/index.js:204-206 | same length and order; entry i is defined exactly when result i is a value, and then it is that value |
| `Settle.SettleValues` | src/index.js:53-56 | getMany/putMany's join: one answer per promise, in order, defined exactly when that promise was fulfilled, with its value |
| `Settle.GetValues` | src/index.js:208-212 | one value per own key of the object, each key visited once, every key visited |
| `Validation.InfoHashOf` | src/index.js:200-202 | getInfoHash succeeds exactly on Buffers, with the digest of their bytes |
| `Validation.MatchDigest` | index.js:69-76 | passes exactly when the key equals the value's info-hash; otherwise a mismatch error carrying that info-hash |
| `Validation.Validate` | src/index.js:116-130 | fails with a String error for a non-string key and a Buffer error for a non-Buffer value; fails with a mismatch carrying the expected digest when the key differs from it; passes otherwise; a key that is not 40 characters (e.g. 'a') always fails |
| `Validation.ArgsToOptions` | src/index.js:91-100 | putOne's shape dispatch: a string first argument becomes `{ key, value }`, a Buffer becomes `{ value }` with no key, anything else is the options object itself |
| `Validation.NormalizeOptions` | src/index.js:132-139 | null/undefined options fail; a null or undefined key becomes the digest of a Buffer value, and otherwise the options are kept as given; every other field is kept; a derived key always passes `Validate` |
| `Validation.PutRequest` | src/index.js:90-107 | putOne's validated request: a result is always content-addressed; a bare Buffer always succeeds under its digest; `(key, value)` succeeds exactly when the key is the value's digest, then with exactly that key and those bytes, and otherwise yields the mismatch error; an options object with a key given succeeds exactly when `Validate` passes on its key and value, with that pair, and otherwise fails with `Validate`'s error; an options object without a key succeeds exactly when its value is a Buffer; a number or other primitive fails in getInfoHash |
| `Store.RemoveBatch` | src/index.js:163-169 | one `del` operation per key, in order |
| `Store.RemoveBatchDeletes` | src/index.js:163-172 | applying removeMany's batch removes exactly the given keys from the store |
| `Store.GetAll` | src/index.js:78-83 | the folded map holds every key of the stream and nothing else, each with the value of its last occurrence |
| `Store.CollectsEnumeration` | src/index.js:78-83 | getAll over a store's full read stream yields exactly the store's contents |
| `Store.GetAllKeys` | src/index.js:66-70 | the stream's keys, one per entry, in stream order |
| `Store.GetAllValues` | src/index.js:72-76 | the stream's values, one per entry, in stream order |
| `Store.EnumeratedKeysAndValues` | src/index.js:66-76 | over a full read stream, getAllKeys yields each stored key exactly once, and getAllValues the value stored under the key at the same position |
| `Keeper.InitInv` | src/index.js:24-26 | a new Keeper (empty `_pending` and `_done`) satisfies the invariant |
| `Keeper.DoPutStep` | src/index.js:141-147 | closed: rejected with nothing changed; in `_done`: resolves to the key with no store call; in `_pending`: the handle already held, nothing new registered; otherwise exactly one new handle is registered, one `get` issued, and the caller awaits the new handle; never a store write |
| `Keeper.ReadKey` | src/index.js:45-51 | a store read succeeds exactly when it does not fail and the key is stored, with the stored value; a missing key gives NotFound |
| `Keeper.Exists` | src/index.js:187-194 | `_exists` is true exactly when the read succeeds; any read error counts as absent |
| `Keeper.ExistsStep` | src/index.js:147-150 | the store is asked to put the value exactly when `_exists` answered false; an existing key moves from `_pending` to `_done` and resolves to the key |
| `Keeper.SavedStep` | src/index.js:151-156 | a successful put stores the value, moves the key from `_pending` to `_done` and resolves to the key; a failed put rejects and leaves the entry in `_pending` with its handle and value, marked failed, so later puts of the key get that rejected handle |
| `Keeper.CloseStep` | src/index.js:179-181 | close sets `_closed` and nothing else |
| `Keeper.FinishCloseStep` | src/index.js:182-184 | the store is closed exactly when the Keeper is closed and no write is in flight |
| `Keeper.RemoveOneStep` | src/index.js:159-161 | deletes the key from the store; `_pending` and `_done` are untouched |
| `Keeper.RemoveManyStep` | src/index.js:163-172 | one batch call deletes exactly the keys; `_pending` and `_done` are untouched |
| `Keeper.DoPutPreservesInv` | src/index.js:141-147 | `_doPut` keeps the invariant (disjoint maps, distinct handles, at most one store put per key) |
| `Keeper.ExistsPreservesInv` | src/index.js:147-150 | the answer to `_exists` keeps the invariant |
| `Keeper.SavedPreservesInv` | src/index.js:151-156 | the answer to the store put keeps the invariant |
| `Keeper.NextPreservesInv` | src/index.js:141-185 | every step of the event loop (put, answers, close, removal) keeps the invariant |
| `Keeper.RunPreservesInv` | src/index.js:141-185 | every interleaving of steps keeps the invariant |
| `Keeper.OneStoreWritePerKey` | src/index.js:141-157 | over a Keeper's whole life, under any interleaving, the store is asked to put each key at most once |
| `Keeper.StoreClosedOnlyWhenDrained` | src/index.js:179-185 | in every reachable state the store is closed only after `_closed` is set and no write is in flight, and no key is both pending and done |
| `Keeper.ClosedAdmitsNoWrite` | src/index.js:142 | once closed, a Keeper stays closed and no key joins `_pending` |
| `Keeper.NextPreservesAddressed` | src/index.js:102-106 | each step keeps every stored and pending value under its own digest, provided the put was validated |
| `Keeper.RunPreservesAddressed` | src/index.js:102-106 | any run of validated puts keeps the store content-addressed |
| `Keeper.PutSameDataTwice` | test/index.js:69-83 | after one write of an absent key the store holds the value, read back byte for byte, with exactly one store put; a second put resolves to the key without any store call |
| `Keeper.PutAfterRemoveSkipsStore` | src/index.js:159-161 | after a write and a removeOne, a put of the same key resolves from `_done` and the store still lacks the value |
| `Keeper.PutStep` | src/index.js:102-106 | putOne's hand-off: an invalid request is rejected with its error and nothing changed; only a valid, fresh key registers a new write; a resolved reply carries the request's key |
| `Keeper.Burst` | src/index.js:109-114 | a burst of puts gives one reply per request; what each reply is, `BurstReplies` states |
| `Keeper.BurstReplies` | src/index.js:109-114 | each put of a burst is rejected with its validation error, rejected as closed, resolved from `_done`, or answered with the handle registered for its key; existing entries are untouched |
| `Keeper.BurstCoalesces` | src/index.js:144-147 | every put of one key in a burst gets the same reply |
| `Keeper.BurstRegistersOnce` | src/index.js:144-147 | a burst makes no store put; every new `_pending` entry comes from a request of the burst, for a key not done, and is still checking |
| `Keeper.ManyRequests` | src/index.js:111 | one request per element: a Buffer is put under its own digest; a string is always rejected for lack of a Buffer, since the element's index becomes its value; null or undefined is rejected; a number or other primitive fails in getInfoHash; an options object gets the request it would get from putOne alone, independent of its index; every accepted request is content-addressed |
| `Keeper.PutRequests` | src/index.js:85-88 | put's dispatch: an array gives putMany's requests (`ManyRequests`), anything else exactly the putOne request of its two arguments; every accepted request is content-addressed |
| `Keeper.Keeper.constructor` | src/index.js:19-28 | a new Keeper over the given store, with empty `_pending` and `_done` |
| `Keeper.Keeper.DoPut` | src/index.js:141-157 | performs `DoPutStep` on the fields and keeps the invariant; a validated put keeps the store content-addressed |
| `Keeper.Keeper.PutOne` | src/index.js:90-107 | validation, then `_doPut`: an invalid request is rejected with nothing changed |
| `Keeper.Keeper.PutMany` | src/index.js:109-114 | one putOne per element, with the element's index as the second argument, in order (`Burst`) |
| `Keeper.Keeper.Put` | src/index.js:85-88 | an array goes to putMany; anything else goes to putOne |
| `Keeper.Keeper.OnExists` | src/index.js:147-150 | performs `ExistsStep` and keeps the invariant |
| `Keeper.Keeper.OnSaved` | src/index.js:151-156 | performs `SavedStep` and keeps the invariant |
| `Keeper.Keeper.Close` | src/index.js:179-182 | sets `_closed` and returns exactly the handles in `_pending` to wait for |
| `Keeper.Keeper.FinishClose` | src/index.js:182-184 | closes the store only when nothing is in flight |
| `Keeper.Keeper.GetMany` | src/index.js:53-56 | one answer per key, in order: the stored value, or undefined where the read failed or the key is absent |
| `Keeper.Keeper.RemoveOne` | src/index.js:159-161 | performs `RemoveOneStep` and keeps the invariant |
| `Keeper.Keeper.RemoveMany` | src/index.js:163-172 | performs `RemoveManyStep` and keeps the invariant |
| `Keeper.Keeper.Clear` | src/index.js:174-177 | removes every key the read stream yields; over a full stream the store ends empty |
| `FsKeeper.KeyDir` | index.js:125 | the first segment is the key's first two characters (Unicode scalar values, not UTF-16 code units), or the whole key if it is shorter |
| `FsKeeper.KeyFile` | index.js:125 | the two segments concatenated give back the key |
| `FsKeeper.ShardPath` | index.js:124-126 | under a non-empty storage directory, a key longer than two characters lives at `storage/kk/rest`, a shorter one at `storage/key` |
| `FsKeeper.ShardPathRoundTrip` | index.js:124-126 | the key is recovered from its sharded path `storage/kk/rest`, under a join that does not normalise |
| `FsKeeper.ShardPathInjective` | index.js:124-126 | two keys never share a sharded path, under a join that does not normalise |
| `FsKeeper.Save` | index.js:128-143 | `_save` run without interruption: writes the value at the path and changes no other file; answers true exactly when the file did not exist before |
| `FsKeeper.IndexOf` | index.js:92 | the first index holding the handle, or -1 exactly when it is absent |
| `FsKeeper.SpliceRemovesHandle` | index.js:91-94 | splicing at the handle's index removes that handle and keeps every other one |
| `FsKeeper.PushThenSplice` | index.js:83-97 | pushing a handle and splicing it out leaves `_pending` as it was |
| `FsKeeper.FsKeeper.constructor` | index.js:19-27 | a new Keeper with an empty `_pending` |
| `FsKeeper.FsKeeper.DoPut` | index.js:78-98 | closed: rejected, with nothing changed; otherwise exactly one new handle is pushed onto `_pending`, with no file touched |
| `FsKeeper.FsKeeper.PutOne` | index.js:50-76 | a value that is not a Buffer (undefined included) fails in getInfoHash and a key that is not the value's info-hash is rejected with the expected digest, both before `_doPut` and with nothing changed; a valid one reaches `_doPut`, and the open/closed flag is unchanged |
| `FsKeeper.FsKeeper.OnExists` | index.js:83-94 | an existing file rejects with "already exists" without `_save` and splices the handle out; otherwise `_save` starts |
| `FsKeeper.FsKeeper.OnSaveChecked` | index.js:128-134 | `_save`'s own fs.exists answers: whether the file existed is recorded for the final answer, and nothing else changes |
| `FsKeeper.FsKeeper.OnSaved` | index.js:135-143 | mkdirp and writeFile finish: the file is written, and the answer is true exactly when `_save`'s own earlier check found no file, even if another write landed since; the handle is spliced out whether the write succeeded or failed |
| `FsKeeper.RacingWritesBothCreate` | index.js:78-143 | two puts of one absent key are not coalesced: both pass `_doPut`'s check, and when both `_save` checks run before either write, both answer true and the file holds the value |
| `FsKeeper.FsKeeper.Close` | index.js:112-113 | sets `_closed` and nothing else |
| `FsKeeper.FsKeeper.GetMany` | index.js:33-41 | one answer per key, in order: the file at the key's sharded path, or undefined where the read failed |

## Left out

- lib/index.js: it is the transpiled form of src/index.js, with the same behaviour.
- Physical I/O. This covers the store's streams (`createReadStream`, `collect`), the
  callback glue (`ninvoke`, `Q.nfbind`), and `fs`, `mkdirp`, `rimraf` and `walk`.
  A read stream is a sequence of entries; a store or file-system failure is a
  boolean parameter of the step that receives it.
- The order of events. The model does not schedule events. `Run` takes any
  sequence of events, and the lemmas over it hold for every sequence.
- Keeper.Keeper.PutMany: runs the `_doPut` of every element before any store
  answer arrives. Because of the awaits inside putOne, other interleavings are
  possible; `Run` covers them, PutMany does not.
- Keeper.Keeper.Close: the order of the handles collected by `getValues`
  (engine key order) is left open.
- The typeforce checks on the constructor's options (`db` an object, `storage` a
  string): constructors take the store contents directly.
- `get`'s dispatch between one key and an array: ReadKey and GetMany are modelled,
  the two-line dispatch is not.
- `_encodeKey` and `_decodeKey`: both are the identity, so they are left out.
- `destroy`: an alias of close, so it has no member of its own.
- Store failures of `del`, `batch` and `close`: they only propagate to their
  caller and touch no Keeper state.
- getInfoHash on a value that is not a Buffer: the model assumes it fails.
- index.js `removeOne`, `removeMany`, `clear` and `getAll`: they are file-system
  plumbing, and `removeMany` reads an undefined variable.
- index.js `putOne` without a value asks getInfoHash of `undefined`, which
  the model, like any other non-Buffer, treats as a failure.
- FsKeeper.FsKeeper.Close: sets the flag only. The source waits on an array
  that wraps `_pending` and so settles at once, which is not a drain.
- FsKeeper.ShardPath: path.join's normalisation is not modelled. That covers
  `.`, `..` and repeated separators, and the `.` that an all-empty join yields.
  Nor is UTF-16: the key is split as KeyDir splits it (next line).
- FsKeeper.KeyDir: lengths and slices count Unicode scalar values, where
  `key.slice` counts UTF-16 code units. So a key with a character outside the
  Basic Multilingual Plane is split at a different place: "😀abc" gives
  `storage/😀/abc` in the source and `storage/😀a/bc` here. A key that passes
  `_validate` is ASCII hexadecimal, so puts never meet this; only GetMany with
  such a key reads a different file.
- FsKeeper.ShardPathInjective: holds only for the join without normalisation.
  Under Node's path.join, the keys "ab/c" and "abc" share the file `storage/ab/c`,
  and a key starting with ".." points outside `storage`. Any key that passes
  `_validate` is 40 hexadecimal characters, with no '/' and no '.', so such
  keys never reach the file system.
- FsKeeper.ShardPathRoundTrip: the same restriction as ShardPathInjective.
- Keeper.Keeper.GetMany and FsKeeper.FsKeeper.GetMany: a failed read is an
  abstract error, not the store's actual error value.
