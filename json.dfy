/** JavaScript values as they pass through `JSON.parse`, the conversions
    the ledger applies to them, and the foreign library calls (`sha256`,
    `JSON.stringify`, `JSON.parse`) that this model leaves uninterpreted. */
module JsValue {
  import opened JsText

  /** A value `JSON.parse` can return. Numbers are integers here. */
  datatype Json =
    | JNull
    | JBool(b: bool)
    | JNumber(n: int)
    | JString(s: string)
    | JArray(items: seq<Json>)
    | JObject(members: seq<Member>)

  datatype Member = Member(key: string, value: Json)

  /** The exceptions the ledger's code can raise. */
  datatype JsError = TypeError | SyntaxError

  datatype Result<T> = Ok(value: T) | Err(error: JsError)

  /** The foreign calls: the crypto-js digest (as its hex string), and the
      JSON codec, whose `parse` gives None where it would throw. Nothing is
      assumed about them: neither collision resistance of `sha256` nor
      that `parse` inverts `stringify`. */
  datatype Lib = Lib(sha256: string -> string, stringify: Json -> string, parse: string -> Option<Json>)

  /** The explicit assumption, for the lemmas that need one, that the
      codec reads back what it writes for `v`. */
  predicate RoundTrips(lib: Lib, v: Json) {
    lib.parse(lib.stringify(v)) == Some(v)
  }

  /** An object's conversion to text throws when the object has its own
      `toString` member: no JSON value is callable, so OrdinaryToPrimitive
      skips that member, `valueOf` gives the object back, and a TypeError
      follows. An array converts through its elements, so one such element
      anywhere inside it makes it throw too. */
  predicate Unprintable(v: Json) {
    match v
    case JObject(members) => LookupMember(members, "toString").Some?
    case JArray(items) => exists i :: 0 <= i < |items| && Unprintable(items[i])
    case _ => false
  }

  /** ECMAScript ToString: how a value becomes a property key, and how
      `JSON.parse` coerces an argument that is not a string. */
  function ToString(v: Json): (r: Result<string>)
    ensures r.Err? <==> Unprintable(v)
    ensures r.Err? ==> r.error == TypeError
    ensures v.JString? ==> r == Ok(v.s)
    decreases v, 1
  {
    match v
    case JNull => Ok("null")
    case JBool(b) => Ok(if b then "true" else "false")
    case JNumber(n) => Ok(RenderInt(n))
    case JString(s) => Ok(s)
    case JArray(items) => ElementsToString(items)
    case JObject(members) =>
      if LookupMember(members, "toString").Some? then Err(TypeError) else Ok("[object Object]")
  }

  /** Array.prototype.join(",") as Array.prototype.toString calls it: a
      null element contributes the empty string, and the elements are
      converted from left to right, so the first that throws decides. */
  function ElementsToString(items: seq<Json>): (r: Result<string>)
    ensures r.Err? <==> exists i :: 0 <= i < |items| && Unprintable(items[i])
    ensures r.Err? ==> r.error == TypeError
    decreases items, 0
  {
    if items == [] then Ok("")
    else
      var first := if items[0].JNull? then Ok("") else ToString(items[0]);
      if first.Err? then first
      else if |items| == 1 then first
      else
        var rest := ElementsToString(items[1..]);
        assert forall i :: 0 <= i < |items| - 1 ==> items[1..][i] == items[i + 1];
        if rest.Err? then rest else Ok(first.value + "," + rest.value)
  }

  /** The value of the last member named `key`, as `JSON.parse` keeps the
      last of duplicated keys. */
  function LookupMember(members: seq<Member>, key: string): (r: Option<Json>)
    ensures r.None? <==> forall i :: 0 <= i < |members| ==> members[i].key != key
    ensures r.Some? ==> exists i :: 0 <= i < |members| && members[i] == Member(key, r.value)
    decreases |members|
  {
    if members == [] then None
    else
      var last := members[|members| - 1];
      if last.key == key then Some(last.value)
      else
        var r := LookupMember(members[..|members| - 1], key);
        assert forall i :: 0 <= i < |members| - 1 ==> members[..|members| - 1][i] == members[i];
        r
  }

  /** `v['name']`: a TypeError on null, the member's value on an object,
      undefined (None) on every other value. */
  function NameProperty(v: Json): (r: Result<Option<Json>>)
    ensures r.Err? <==> v.JNull?
    ensures r.Ok? && r.value.Some? ==> v.JObject?
  {
    match v
    case JNull => Err(TypeError)
    case JObject(members) => Ok(LookupMember(members, "name"))
    case _ => Ok(None)
  }
}
