/**
 * validate_log_entry: the guard chain that decides whether a decoded line is a
 * log entry, and the record the aggregator reads out of an accepted one.
 */
module Validation {
  import opened JsonValue

  /** The keys an entry must carry, in the order the guard tests them. */
  const RequiredFields: seq<string> := ["timestamp", "endpoint", "status_code"]

  /** The declarative reading of a valid entry: an object that holds all three
      required keys, whose `endpoint` is a str and whose `status_code` is an int
      (a bool included). Extra keys are ignored and `timestamp` may hold any
      value. */
  predicate IsLogEntry(v: Json) {
    && v.JObject?
    && "timestamp" in v.fields
    && "endpoint" in v.fields
    && "status_code" in v.fields
    && v.fields["endpoint"].JString?
    && IsPyInt(v.fields["status_code"])
  }

  /** `all(k in entry for k in keys)`: the generator stops at the first key that
      is absent, and an `in` that raises ends the whole expression with that
      exception. */
  function AllKeysIn(entry: Json, keys: seq<string>): (r: Py<bool>)
    ensures r.Raised? ==> keys != [] && Contains(entry, keys[0]).Raised?
    ensures entry.JObject? ==> r == Ok(forall k :: k in keys ==> k in entry.fields)
  {
    if keys == [] then Ok(true)
    else
      match Contains(entry, keys[0])
      case Raised => Raised
      case Ok(found) => if !found then Ok(false) else AllKeysIn(entry, keys[1..])
  }

  /** The body of the `try` block, evaluated the Python way: each guard either
      answers, or raises and leaves the answer to the handler. For an object no
      guard raises and the chain answers IsLogEntry; every other value is
      rejected, whether a guard answers or raises. */
  function CheckEntry(entry: Json): (r: Py<bool>)
    ensures entry.JObject? ==> r == Ok(IsLogEntry(entry))
    ensures !entry.JObject? ==> r != Ok(true)
  {
    RequiredFieldsPresent(entry);
    match AllKeysIn(entry, RequiredFields)
    case Raised => Raised
    case Ok(present) =>
      if !present then Ok(false)
      else
        match Subscript(entry, "endpoint")
        case Raised => Raised
        case Ok(endpoint) =>
          if !endpoint.JString? then Ok(false)
          else
            match Subscript(entry, "status_code")
            case Raised => Raised
            case Ok(status) => Ok(IsPyInt(status))
  }

  /** On an object, the presence guard answers whether the three required keys
      are all there. */
  lemma RequiredFieldsPresent(entry: Json)
    ensures entry.JObject? ==>
              AllKeysIn(entry, RequiredFields)
                == Ok("timestamp" in entry.fields && "endpoint" in entry.fields && "status_code" in entry.fields)
  {
    var fields := RequiredFields;
    if entry.JObject? {
      assert AllKeysIn(entry, fields) == Ok(forall k :: k in fields ==> k in entry.fields);
      assert (forall k :: k in fields ==> k in entry.fields)
        <==> "timestamp" in entry.fields && "endpoint" in entry.fields && "status_code" in entry.fields
      by {
        assert fields[0] == "timestamp" && fields[1] == "endpoint" && fields[2] == "status_code";
        assert forall k :: k in fields ==> k == fields[0] || k == fields[1] || k == fields[2];
      }
    }
  }

  /** validate_log_entry: the guard chain with its catch-all handler, which turns
      any exception into `False`. It accepts exactly the log entries. */
  function ValidateLogEntry(entry: Json): (ok: bool)
    ensures ok <==> IsLogEntry(entry)
  {
    match CheckEntry(entry)
    case Raised => false
    case Ok(answer) => answer
  }

  /** Validation raises internally only on a value that is not an object, and
      the handler answers `False` for it: a None, bool or number raises at the
      first `in`; a str or list that mentions all three names raises at the
      subscript. */
  lemma ValidationRaisesOnlyOnNonObjects(entry: Json)
    ensures CheckEntry(entry).Raised? ==> !entry.JObject? && !ValidateLogEntry(entry)
    ensures (entry.JNull? || entry.JBool? || entry.JInt? || entry.JFloat?) ==> CheckEntry(entry).Raised?
  {
  }

  /** A list naming the three fields passes the `in` guard, because list
      membership compares elements, and then raises on `entry['endpoint']`. */
  lemma FieldNameListRaisesAtSubscript()
    ensures var v := JArray([JString("status_code"), JString("endpoint"), JString("timestamp")]);
            AllKeysIn(v, RequiredFields) == Ok(true) && CheckEntry(v).Raised? && !ValidateLogEntry(v)
  {
    var v := JArray([JString("status_code"), JString("endpoint"), JString("timestamp")]);
    assert JString("timestamp") == v.items[2];
    assert JString("endpoint") == v.items[1];
    assert JString("status_code") == v.items[0];
  }

  /** What the aggregator reads from an accepted entry. */
  datatype Entry = Entry(endpoint: string, status: int)

  /** `entry['endpoint']` and `entry['status_code']` of a valid entry; a bool
      status code reads as 1 or 0 when it is compared with 400. */
  function EntryOf(v: Json): (e: Entry)
    requires IsLogEntry(v)
  {
    Entry(v.fields["endpoint"].str, IntValue(v.fields["status_code"]))
  }

  /** A JSON `true` status code is accepted and compares as 1, so it is not an
      error; a float such as 404.0 is refused; a timestamp of any type passes. */
  lemma StatusCodeTypeQuirks(endpoint: string, timestamp: Json)
    ensures var v := JObject(map["timestamp" := timestamp, "endpoint" := JString(endpoint), "status_code" := JBool(true)]);
            ValidateLogEntry(v) && EntryOf(v).status == 1
    ensures !ValidateLogEntry(JObject(map["timestamp" := timestamp, "endpoint" := JString(endpoint), "status_code" := JFloat("404.0")]))
  {
  }
}
