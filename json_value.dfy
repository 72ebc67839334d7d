/**
 * Decoded JSON values, as json.loads hands them to the analyzer, and the two
 * Python operations the validator applies to them: the `in` operator with a
 * string on its left and subscripting with a string key. Both can raise in
 * Python; a raise is a first-class value here (`Py.Raised`).
 */
module JsonValue {

  /** A value produced by json.loads whose strings (values and keys) are
      sequences of Unicode scalar values; a string holding a lone surrogate,
      which a `\ud800` escape produces, has no `Json` value. Objects are dicts
      (a repeated key keeps its last value, so a map is exact); a number with a
      fraction or an exponent becomes a Python float, kept here as its literal
      text because the analyzer never computes with it. */
  datatype Json =
    | JNull
    | JBool(b: bool)
    | JInt(i: int)
    | JFloat(literal: string)
    | JString(str: string)
    | JArray(items: seq<Json>)
    | JObject(fields: map<string, Json>)

  /** The outcome of evaluating a Python expression: a value, or an exception. */
  datatype Py<T> = Ok(value: T) | Raised

  /** Python's `k in s` for two strings: does `k` occur in `s` as a contiguous
      run of characters, starting at some position `i`? */
  function Occurs(k: string, s: string): (r: bool)
    ensures r <==> exists i :: 0 <= i <= |s| - |k| && k <= s[i..]
    decreases |s|
  {
    if k <= s then
      assert k <= s[0..];
      true
    else if |s| == 0 then
      false
    else
      var r := Occurs(k, s[1..]);
      if r then
        var i :| 0 <= i <= |s| - 1 - |k| && k <= s[1..][i..];
        assert s[1..][i..] == s[i + 1..];
        r
      else
        assert forall i :: 1 <= i <= |s| ==> s[i..] == s[1..][i - 1..];
        r
  }

  /** Python's `key in container` where `key` is a str. A dict tests its keys,
      a str tests for a substring, a list compares every element with `==`
      (only an equal str matches); None, bool, int and float raise TypeError. */
  function Contains(container: Json, key: string): (r: Py<bool>)
    ensures r.Raised? <==> (container.JNull? || container.JBool? || container.JInt? || container.JFloat?)
    ensures container.JObject? ==> r == Ok(key in container.fields)
    ensures container.JString? ==> r == Ok(Occurs(key, container.str))
    ensures container.JArray? ==> r == Ok(JString(key) in container.items)
  {
    match container
    case JObject(fields) => Ok(key in fields)
    case JString(s) => Ok(Occurs(key, s))
    case JArray(items) => Ok(JString(key) in items)
    case _ => Raised
  }

  /** Python's `container[key]` where `key` is a str. Only a dict holding the
      key yields a value: a missing key raises KeyError, a str or list index
      that is not an int raises TypeError, and None, bool, int and float are
      not subscriptable. */
  function Subscript(container: Json, key: string): (r: Py<Json>)
    ensures r.Ok? <==> container.JObject? && key in container.fields
    ensures r.Ok? ==> r.value == container.fields[key]
  {
    match container
    case JObject(fields) => if key in fields then Ok(fields[key]) else Raised
    case _ => Raised
  }

  /** `isinstance(v, int)`: bool is a subclass of int in Python. */
  predicate IsPyInt(v: Json) {
    v.JInt? || v.JBool?
  }

  /** The integer a Python int or bool stands for when it is compared with
      another int: an int is itself, and a bool is 0 or 1, 1 exactly for True. */
  function IntValue(v: Json): (n: int)
    requires IsPyInt(v)
    ensures v.JInt? ==> n == v.i
    ensures v.JBool? ==> 0 <= n <= 1 && (n == 1 <==> v.b)
  {
    match v
    case JInt(i) => i
    case JBool(b) => if b then 1 else 0
  }
}
