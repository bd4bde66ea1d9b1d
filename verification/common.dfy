/** Values shared by both Keeper revisions: bytes, info-hashes, the JavaScript
    values that reach the Keeper's public surface, its errors and results. */
module Common {

  type Byte = bv8

  /** A Node.js Buffer, as the bytes it holds. */
  type Bytes = seq<Byte>

  predicate IsHexDigit(c: char) {
    '0' <= c <= '9' || 'a' <= c <= 'f'
  }

  /** What getInfoHash yields: a 40-character lower-case hexadecimal string.
      The digest itself is a parameter of type `Bytes -> InfoHash`. */
  type InfoHash = s: string | |s| == 40 && forall i :: 0 <= i < |s| ==> IsHexDigit(s[i])
    witness "0000000000000000000000000000000000000000"

  /** The JavaScript values a caller may hand to putOne / _validate. */
  datatype JsValue =
    | Undefined
    | Null
    | Str(s: string)
    | Buf(bytes: Bytes)
    | Obj(fields: map<string, JsValue>)
    | Other  // numbers, booleans and other primitives: no own properties

  /** `v == null` in JavaScript: true of both null and undefined. */
  predicate IsNullish(v: JsValue) {
    v.Undefined? || v.Null?
  }

  /** Reading property `name` of an object's own fields; absent reads as undefined. */
  function Prop(fields: map<string, JsValue>, name: string): (v: JsValue)
    ensures name !in fields ==> v == Undefined
    ensures name in fields ==> v == fields[name]
  {
    if name in fields then fields[name] else Undefined
  }

  datatype KeeperError =
    | InvalidType(expected: string)   // typeforce failures, property read of null/undefined
    | KeyMismatch(infoHash: InfoHash) // the key is not the info-hash of the value
    | DigestFailed                    // getInfoHash given something that is not a Buffer
    | Closed                          // a write after close
    | AlreadyExists                   // older revision: the key is already stored
    | NotFound                        // the backing store has no value for the key
    | StoreFailure                    // any other failure of the backing store

  /** The message text of an error, for the three errors whose text the
      source writes out; the others carry whatever message the failing
      library gives, which this model does not fix (None). */
  function Message(e: KeeperError): (m: Option<string>)
    ensures m.Some? <==> e.KeyMismatch? || e.Closed? || e.AlreadyExists?
    ensures e.KeyMismatch? ==> |m.value| >= 40 && m.value[|m.value| - 40..] == e.infoHash
    ensures e.Closed? ==> m.value == "Keeper is closed"
    ensures e.AlreadyExists? ==> m.value == "value for this key already exists in Keeper"
  {
    match e
    case KeyMismatch(h) => Some("Key must be the infohash of the value, in this case: " + h)
    case Closed => Some("Keeper is closed")
    case AlreadyExists => Some("value for this key already exists in Keeper")
    case _ => None
  }

  datatype Option<+T> = None | Some(value: T)

  /** A settled promise: fulfilled with a value or rejected with an error. */
  datatype Result<+T> = Ok(value: T) | Err(error: KeeperError)

  /** A promise that settles with no value of interest. */
  datatype Outcome = Pass | Fail(error: KeeperError)
}
