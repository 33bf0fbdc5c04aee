/**
 * core/src/log.rs: the tracing layer that turns each event into one text line
 * for the client's logger.
 */
module Log {
  import opened Wrappers

  /** The JSON values the visitor stores (serde_json::Value as built by `json!`). */
  datatype JsonValue =
    | JNumber(n: int)
    | JFloat(x: real)
    | JBool(b: bool)
    | JString(s: string)
    | JObject(fields: map<string, JsonValue>)

  /** A value handed to the visitor, tagged by the `record_*` method tracing picks for it. */
  datatype FieldValue =
    | F64(x: real)
    | I64(i: int)
    | U64(u: nat)
    | I128(i: int)
    | U128(u: nat)
    | Bool(b: bool)
    | Str(s: string)
    | Error(display: string)  // the error's Display text
    | Debug(text: string)     // the value's `{:?}` text

  datatype Field = Field(name: string, value: FieldValue)

  /** The JSON value each `record_*` method stores. */
  function ToJson(v: FieldValue): (j: JsonValue)
    ensures v.Error? ==> j == JString("error: " + v.display)
    ensures v.Debug? ==> j == JString(v.text)
    ensures (v.I64? || v.I128?) ==> j == JNumber(v.i)
    ensures (v.U64? || v.U128?) ==> j == JNumber(v.u)
  {
    match v
    case F64(x) => JFloat(x)
    case I64(i) => JNumber(i)
    case U64(u) => JNumber(u)
    case I128(i) => JNumber(i)
    case U128(u) => JNumber(u)
    case Bool(b) => JBool(b)
    case Str(s) => JString(s)
    case Error(d) => JString("error: " + d)
    case Debug(t) => JString(t)
  }

  /** LogVisitor: fills the event's field map, one insert per recorded field. */
  class LogVisitor {
    var fields: map<string, JsonValue>

    constructor ()
      ensures fields == map[]
    {
      fields := map[];
    }

    method RecordF64(name: string, value: real)
      modifies this
      ensures fields == old(fields)[name := JFloat(value)]
    {
      fields := fields[name := JFloat(value)];
    }

    method RecordI64(name: string, value: int)
      modifies this
      ensures fields == old(fields)[name := JNumber(value)]
    {
      fields := fields[name := JNumber(value)];
    }

    method RecordU64(name: string, value: nat)
      modifies this
      ensures fields == old(fields)[name := JNumber(value)]
    {
      fields := fields[name := JNumber(value)];
    }

    method RecordI128(name: string, value: int)
      modifies this
      ensures fields == old(fields)[name := JNumber(value)]
    {
      fields := fields[name := JNumber(value)];
    }

    method RecordU128(name: string, value: nat)
      modifies this
      ensures fields == old(fields)[name := JNumber(value)]
    {
      fields := fields[name := JNumber(value)];
    }

    method RecordBool(name: string, value: bool)
      modifies this
      ensures fields == old(fields)[name := JBool(value)]
    {
      fields := fields[name := JBool(value)];
    }

    method RecordStr(name: string, value: string)
      modifies this
      ensures fields == old(fields)[name := JString(value)]
    {
      fields := fields[name := JString(value)];
    }

    method RecordError(name: string, display: string)
      modifies this
      ensures fields == old(fields)[name := JString("error: " + display)]
    {
      fields := fields[name := JString("error: " + display)];
    }

    method RecordDebug(name: string, text: string)
      modifies this
      ensures fields == old(fields)[name := JString(text)]
    {
      fields := fields[name := JString(text)];
    }

    /** `event.record(visitor)` for one field: dispatches on the value's kind. */
    method Record(f: Field)
      modifies this
      ensures fields == old(fields)[f.name := ToJson(f.value)]
    {
      match f.value
      case F64(x) => RecordF64(f.name, x);
      case I64(i) => RecordI64(f.name, i);
      case U64(u) => RecordU64(f.name, u);
      case I128(i) => RecordI128(f.name, i);
      case U128(u) => RecordU128(f.name, u);
      case Bool(b) => RecordBool(f.name, b);
      case Str(s) => RecordStr(f.name, s);
      case Error(d) => RecordError(f.name, d);
      case Debug(t) => RecordDebug(f.name, t);
    }
  }

  /** The map after recording `fs` in order. */
  ghost function Collected(fs: seq<Field>): map<string, JsonValue> {
    if fs == [] then map[]
    else Collected(fs[..|fs| - 1])[fs[|fs| - 1].name := ToJson(fs[|fs| - 1].value)]
  }

  /** The value of the last field called `k`, read independently of any map. */
  ghost function LastValue(fs: seq<Field>, k: string): Option<JsonValue> {
    if fs == [] then None
    else if fs[|fs| - 1].name == k then Some(ToJson(fs[|fs| - 1].value))
    else LastValue(fs[..|fs| - 1], k)
  }

  /** The fields that go into the JSON object: all but "message" and "name". */
  ghost function Remaining(fs: seq<Field>): map<string, JsonValue> {
    Collected(fs) - {"message", "name"}
  }

  /** The logged line: the message's JSON text (or nothing), ": ", then the other fields as JSON. */
  ghost function Line(fs: seq<Field>, toJson: JsonValue -> string): string {
    var c := Collected(fs);
    (if "message" in c then toJson(c["message"]) else "") + ": " + toJson(JObject(Remaining(fs)))
  }

  /** A field is in the map exactly when some recorded field has its name, with the last one's value. */
  lemma {:induction false} CollectedLastWins(fs: seq<Field>, k: string)
    ensures k in Collected(fs) <==> LastValue(fs, k).Some?
    ensures k in Collected(fs) ==> Collected(fs)[k] == LastValue(fs, k).value
    ensures LastValue(fs, k).Some? <==> exists i :: 0 <= i < |fs| && fs[i].name == k
  {
    if fs != [] {
      var init := fs[..|fs| - 1];
      CollectedLastWins(init, k);
      if fs[|fs| - 1].name != k {
        assert forall i :: 0 <= i < |init| ==> init[i] == fs[i];
        if exists i :: 0 <= i < |fs| && fs[i].name == k {
          var i :| 0 <= i < |fs| && fs[i].name == k;
          assert init[i].name == k;
        }
      }
    }
  }

  /** "message" and "name" never reach the JSON object; every other key does, with its last value. */
  lemma RemainingFields(fs: seq<Field>, k: string)
    ensures "message" !in Remaining(fs) && "name" !in Remaining(fs)
    ensures k != "message" && k != "name" ==>
      (k in Remaining(fs) <==> exists i :: 0 <= i < |fs| && fs[i].name == k)
    ensures k in Remaining(fs) ==> LastValue(fs, k) == Some(Remaining(fs)[k])
  {
    CollectedLastWins(fs, k);
  }

  /** The message text is the JSON of the last "message" field, empty when there is none. */
  lemma MessagePart(fs: seq<Field>, toJson: JsonValue -> string)
    ensures LastValue(fs, "message").None? ==> Line(fs, toJson) == ": " + toJson(JObject(Remaining(fs)))
    ensures LastValue(fs, "message").Some? ==>
      Line(fs, toJson) == toJson(LastValue(fs, "message").value) + ": " + toJson(JObject(Remaining(fs)))
  {
    CollectedLastWins(fs, "message");
  }

  /** FFILogLayer::on_event: records every field of the event, then formats the line. */
  method OnEvent(fs: seq<Field>, toJson: JsonValue -> string) returns (line: string)
    ensures line == Line(fs, toJson)
  {
    var visitor := new LogVisitor();
    for i := 0 to |fs|
      invariant visitor.fields == Collected(fs[..i])
    {
      assert fs[..i + 1][..i] == fs[..i];
      visitor.Record(fs[i]);
    }
    assert fs[..|fs|] == fs;
    var fields := visitor.fields;
    var message := if "message" in fields then toJson(fields["message"]) else "";
    fields := fields - {"message"};
    fields := fields - {"name"};
    assert fields == Remaining(fs);
    line := message + ": " + toJson(JObject(fields));
  }
}
