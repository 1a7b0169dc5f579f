/** JSON values as `serde_json` and `JSON.parse` present them. Text is parsed by a function given as a parameter. */
module Json {
  import opened Wrappers

  datatype Json =
    | Null
    | Bool(b: bool)
    | UInt(n: nat)                        // a number without sign or fraction
    | Float(x: real)                      // any other finite number
    | Str(s: string)
    | Arr(items: seq<Json>)
    | Obj(fields: map<string, Json>)

  /** `serde_json::from_str(..).ok()`, whatever the text grammar accepts. */
  type Parser = string -> Option<Json>

  function Get(j: Json, key: string): Option<Json> {
    if j.Obj? && key in j.fields then Some(j.fields[key]) else None
  }

  function AsStr(j: Option<Json>): Option<string> {
    if j.Some? && j.value.Str? then Some(j.value.s) else None
  }

  function AsU64(j: Option<Json>): (n: Option<nat>)
    ensures n.Some? ==> n.value <= U64_MAX
  {
    if j.Some? && j.value.UInt? && j.value.n <= U64_MAX then Some(j.value.n) else None
  }

  predicate IsNumber(j: Option<Json>) {
    j.Some? && (j.value.UInt? || j.value.Float?)
  }

  function GetStr(j: Json, key: string): Option<string> {
    AsStr(Get(j, key))
  }

  function GetU64(j: Json, key: string): Option<nat> {
    AsU64(Get(j, key))
  }

  /** An object with this member and this value; how the reading functions above are restated. */
  predicate Has(j: Json, key: string, value: Json) {
    j.Obj? && key in j.fields && j.fields[key] == value
  }

  /** The member is text of 1 to `max` bytes. */
  predicate HasText(j: Json, key: string, max: nat) {
    j.Obj? && key in j.fields && j.fields[key].Str? && 1 <= |j.fields[key].s| <= max
  }
}
