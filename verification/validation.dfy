/** Key derivation and key/value validation of src/index.js (putOne,
    _normalizeOptions, _validate) and the digest comparison that index.js's
    _validate also makes. The digest (getInfoHash) is the parameter `digest`. */
module Validation {
  import opened Common

  /** getInfoHash(value): the digest of a Buffer; anything else fails. */
  function InfoHashOf(digest: Bytes -> InfoHash, v: JsValue): (r: Result<InfoHash>)
    ensures r.Ok? <==> v.Buf?
    ensures v.Buf? ==> r.value == digest(v.bytes)
  {
    if v.Buf? then Ok(digest(v.bytes)) else Err(DigestFailed)
  }

  /** `if (key !== infoHash) throw ...`: the comparison both revisions make. */
  function MatchDigest(digest: Bytes -> InfoHash, key: JsValue, bytes: Bytes): (r: Outcome)
    ensures r.Pass? <==> key == Str(digest(bytes))
    ensures r.Fail? ==> r.error == KeyMismatch(digest(bytes))
  {
    var infoHash := digest(bytes);
    if key != Str(infoHash) then Fail(KeyMismatch(infoHash)) else Pass
  }

  /** _validate: the key must be a String, the value a Buffer, and the key the
      info-hash of the value; the error of a mismatch carries that info-hash. */
  function Validate(digest: Bytes -> InfoHash, key: JsValue, value: JsValue): (r: Outcome)
    ensures r.Pass? <==> key.Str? && value.Buf? && key.s == digest(value.bytes)
    ensures !key.Str? ==> r == Fail(InvalidType("String"))
    ensures key.Str? && !value.Buf? ==> r == Fail(InvalidType("Buffer"))
    ensures key.Str? && value.Buf? && key.s != digest(value.bytes) ==> r == Fail(KeyMismatch(digest(value.bytes)))
    ensures key.Str? && |key.s| != 40 ==> r.Fail?
  {
    if !key.Str? then Fail(InvalidType("String"))
    else if !value.Buf? then Fail(InvalidType("Buffer"))
    else MatchDigest(digest, key, value.bytes)
  }

  /** The own fields of an options value (a primitive has none). */
  function Fields(options: JsValue): map<string, JsValue> {
    if options.Obj? then options.fields else map[]
  }

  /** putOne's argument dispatch: `(key, value)` when the first argument is a
      string, `{ value }` when it is a Buffer, else the options object itself. */
  function ArgsToOptions(first: JsValue, second: JsValue): (options: JsValue)
    ensures first.Str? ==> Prop(Fields(options), "key") == first && Prop(Fields(options), "value") == second
    ensures first.Buf? ==> Prop(Fields(options), "key") == Undefined && Prop(Fields(options), "value") == first
    ensures !first.Str? && !first.Buf? ==> options == first
  {
    match first
    case Str(_) => Obj(map["key" := first, "value" := second])
    case Buf(_) => Obj(map["value" := first])
    case _ => first
  }

  /** _normalizeOptions: `{ ...options, key }`, where key is options.key, or the
      info-hash of options.value when options.key is null or undefined. Reading
      a property of null or undefined throws a TypeError. */
  function NormalizeOptions(digest: Bytes -> InfoHash, options: JsValue): (r: Result<map<string, JsValue>>)
    ensures IsNullish(options) <==> r == Err(InvalidType("Object"))
    ensures r.Ok? ==> r.value.Keys == Fields(options).Keys + {"key"}
    ensures r.Ok? ==> forall f :: f in Fields(options) && f != "key" ==> r.value[f] == Fields(options)[f]
    ensures !IsNullish(options) && !IsNullish(Prop(Fields(options), "key")) ==> r == Ok(Fields(options))
    ensures !IsNullish(options) && IsNullish(Prop(Fields(options), "key")) ==>
              (r.Ok? <==> Prop(Fields(options), "value").Buf?)
    ensures r.Ok? && IsNullish(Prop(Fields(options), "key")) ==>
              Validate(digest, r.value["key"], Prop(r.value, "value")).Pass?
  {
    if IsNullish(options) then Err(InvalidType("Object"))
    else
      var fields := Fields(options);
      var key := Prop(fields, "key");
      if IsNullish(key) then
        match InfoHashOf(digest, Prop(fields, "value"))
        case Ok(h) => Ok(fields["key" := Str(h)])
        case Err(e) => Err(e)
      else
        assert fields["key" := key] == fields;
        Ok(fields["key" := key])
  }

  /** The synchronous logic of putOne before _doPut: dispatch on the argument
      shape, normalise, validate; the answer is the key and bytes to write. */
  function PutRequest(digest: Bytes -> InfoHash, first: JsValue, second: JsValue): (r: Result<(string, Bytes)>)
    ensures r.Ok? ==> r.value.0 == digest(r.value.1)
    ensures first.Buf? ==> r == Ok((digest(first.bytes), first.bytes))
    ensures first.Str? ==> (r.Ok? <==> second.Buf? && first.s == digest(second.bytes))
    ensures first.Str? && second.Buf? && first.s != digest(second.bytes) ==>
              r == Err(KeyMismatch(digest(second.bytes)))
    ensures first.Obj? && IsNullish(Prop(first.fields, "key")) && Prop(first.fields, "value").Buf? ==>
              r == Ok((digest(Prop(first.fields, "value").bytes), Prop(first.fields, "value").bytes))
    ensures IsNullish(first) ==> r == Err(InvalidType("Object"))
    // putOne({ value }) with no key: only a Buffer value gets through getInfoHash
    ensures first.Obj? && IsNullish(Prop(first.fields, "key")) ==> (r.Ok? <==> Prop(first.fields, "value").Buf?)
    // a number or other primitive has no key and no value: getInfoHash(undefined) fails
    ensures first.Other? ==> r == Err(DigestFailed)
    // putOne(key, value): exactly that key and those bytes
    ensures first.Str? && r.Ok? ==> r.value == (first.s, second.bytes)
    // putOne({ key, value }) with a key given: _validate decides alone
    ensures first.Obj? && !IsNullish(Prop(first.fields, "key")) ==>
              var key, value := Prop(first.fields, "key"), Prop(first.fields, "value");
              && (r.Ok? <==> Validate(digest, key, value).Pass?)
              && (r.Ok? ==> r.value == (key.s, value.bytes))
              && (r.Err? ==> Validate(digest, key, value) == Fail(r.error))
  {
    match NormalizeOptions(digest, ArgsToOptions(first, second))
    case Err(e) => Err(e)
    case Ok(options) =>
      var key := Prop(options, "key");
      var value := Prop(options, "value");
      match Validate(digest, key, value)
      case Fail(e) => Err(e)
      case Pass => Ok((key.s, value.bytes))
  }
}
