/**
 * The JSON values that Python's `json` module produces (None, bool, int,
 * float, str, list, dict), with the two facts about them the handler relies
 * on: Python truthiness and the name of their Python type.
 */
module Json {
  import opened PyText

  datatype JsonValue =
    | JNull
    | JBool(b: bool)
    | JInt(i: int)
    | JFloat(f: real)
    | JStr(s: Str)
    | JArray(items: seq<JsonValue>)
    | JObject(fields: map<Str, JsonValue>)

  /**
   * The values Python's truth testing calls false: None, False, the zeros of
   * the numeric types, and the empty string, list and dict.
   */
  const FalsyValues: set<JsonValue> :=
    {JNull, JBool(false), JInt(0), JFloat(0.0), JStr([]), JArray([]), JObject(map[])}

  /** `bool(v)` in Python. */
  predicate Truthy(v: JsonValue)
    ensures !Truthy(v) <==> v in FalsyValues
  {
    match v
    case JNull => false
    case JBool(b) => b
    case JInt(i) => i != 0
    case JFloat(f) => f != 0.0
    case JStr(s) => s != []
    case JArray(items) => items != []
    case JObject(fields) => fields != map[]
  }

  /** `type(v).__name__` for what `json.loads` returns. */
  function TypeName(v: JsonValue): (r: Str)
    ensures r == Lit("dict") <==> v.JObject?
    ensures r == Lit("str") <==> v.JStr?
  {
    match v
    case JNull => Lit("NoneType")
    case JBool(_) => assert Lit("bool")[0] != Lit("dict")[0]; Lit("bool")
    case JInt(_) => assert Lit("int")[0] != Lit("str")[0]; Lit("int")
    case JFloat(_) => Lit("float")
    case JStr(_) => Lit("str")
    case JArray(_) => Lit("list")
    case JObject(_) => Lit("dict")
  }

  /**
   * The message of the AttributeError Python raises when `attr` is looked up
   * on a value whose type lacks it: `'list' object has no attribute 'keys'`.
   */
  function AttributeError(v: JsonValue, attr: string): (m: Str)
    ensures |m| == |TypeName(v)| + |attr| + 29
    ensures m[0] == 39 && m[|m| - 1] == 39
    ensures m[1..1 + |TypeName(v)|] == TypeName(v)
    ensures m[1 + |TypeName(v)|..|m| - 1 - |attr|] == Lit("' object has no attribute '")
    ensures m[|m| - 1 - |attr|..|m| - 1] == Lit(attr)
  {
    var name := TypeName(v);
    var m := Lit("'") + name + Lit("' object has no attribute '") + Lit(attr) + Lit("'");
    assert m[1..1 + |name|] == name;
    assert m[1 + |name|..|m| - 1 - |attr|] == Lit("' object has no attribute '");
    assert m[|m| - 1 - |attr|..|m| - 1] == Lit(attr);
    m
  }
}
