/**
 * Decoded JSON values as the viewer sees them after `JSON.parse`, and the
 * two JavaScript notions the viewer applies to them: property access
 * (`obj.key`) and truthiness (`x || fallback`).
 */
module JsonValue {

  datatype Option<T> = None | Some(value: T)

  /** A decoded JSON document. Numbers are modelled as integers. */
  datatype Json =
    | JNull
    | JBool(b: bool)
    | JNumber(n: int)
    | JString(s: string)
    | JArray(items: seq<Json>)
    | JObject(members: seq<(string, Json)>)

  /** The value of the last member named `key`; `JSON.parse` keeps the last of duplicate keys. */
  function LookupLast(members: seq<(string, Json)>, key: string): Option<Json>
    decreases |members|
  {
    if |members| == 0 then None
    else if members[|members| - 1].0 == key then Some(members[|members| - 1].1)
    else LookupLast(members[..|members| - 1], key)
  }

  /** The lookup fails exactly when no member has the key, and otherwise finds the last member that has it. */
  lemma {:induction false} LookupLastFindsLastMember(members: seq<(string, Json)>, key: string)
    ensures LookupLast(members, key).None? <==> forall i :: 0 <= i < |members| ==> members[i].0 != key
    ensures LookupLast(members, key).Some? ==>
              exists i :: 0 <= i < |members| && members[i] == (key, LookupLast(members, key).value)
                          && forall j :: i < j < |members| ==> members[j].0 != key
    decreases |members|
  {
    if |members| > 0 && members[|members| - 1].0 != key {
      var init := members[..|members| - 1];
      LookupLastFindsLastMember(init, key);
      if LookupLast(init, key).Some? {
        var i :| 0 <= i < |init| && init[i] == (key, LookupLast(init, key).value)
                 && forall j :: i < j < |init| ==> init[j].0 != key;
        assert members[i] == init[i];
      }
    }
  }

  /**
   * `obj.key` for a non-null value: `None` stands for `undefined`. Only objects
   * carry the keys the viewer reads. On `null` JavaScript throws instead, so
   * callers test for `JNull` first.
   */
  function Field(obj: Json, key: string): (r: Option<Json>)
    ensures !obj.JObject? ==> r.None?
  {
    match obj
    case JObject(members) => LookupLast(members, key)
    case _ => None
  }

  /** JavaScript truthiness of a decoded value (`-0` and `0` are both the integer 0 here). */
  predicate Truthy(j: Json) {
    match j
    case JNull => false
    case JBool(b) => b
    case JNumber(n) => n != 0
    case JString(s) => s != ""
    case JArray(_) => true
    case JObject(_) => true
  }

  /** `obj.key || fallback` for a non-null `obj`. */
  function FieldOr(obj: Json, key: string, fallback: Json): (r: Json)
    ensures r == fallback || Field(obj, key) == Some(r)
    ensures Truthy(fallback) ==> Truthy(r)
  {
    var f := Field(obj, key);
    if f.Some? && Truthy(f.value) then f.value else fallback
  }
}
