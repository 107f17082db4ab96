/** Parsed JSON values, as stored options and metadata are read and written. */
module JsonValues {
  import opened Collections

  /** A parsed JSON value. */
  datatype Value =
    | VNull
    | VBool(b: bool)
    | VNumber(n: real)
    | VString(s: string)
    | VArray(items: seq<Value>)
    | VObject(fields: map<string, Value>)

  function ObjectField(fields: map<string, Value>, key: string): Option<map<string, Value>> {
    if key in fields && fields[key].VObject? then Some(fields[key].fields) else None
  }

  function StringField(fields: map<string, Value>, key: string): Option<string> {
    if key in fields && fields[key].VString? then Some(fields[key].s) else None
  }

  function ArrayField(fields: map<string, Value>, key: string): Option<seq<Value>> {
    if key in fields && fields[key].VArray? then Some(fields[key].items) else None
  }

  /** The entries that are strings. */
  function StringsIn(items: seq<Value>): seq<string> {
    if items == [] then []
    else (if items[0].VString? then [items[0].s] else []) + StringsIn(items[1..])
  }

  function WriteStrings(values: seq<string>): seq<Value> {
    Map(values, s => VString(s))
  }

  function StringOrNull(s: Option<string>): Value {
    if s.Some? then VString(s.value) else VNull
  }

  lemma {:induction false} StringsReadBack(values: seq<string>)
    ensures StringsIn(WriteStrings(values)) == values
  {
    if values != [] {
      assert WriteStrings(values)[1..] == WriteStrings(values[1..]);
      StringsReadBack(values[1..]);
    }
  }
}
