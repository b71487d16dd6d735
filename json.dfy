/** The part of a parsed JSON document the engine looks at: the value under one key,
    whether JavaScript counts it as true, and what `String(value)` makes of it. Parsing
    itself (`JSON.parse`) is not modelled; parsers are passed in as functions. */
module Json {
  import opened Wrappers

  /** A JSON string, or any other JSON value (number, boolean, null, array, object)
      given by its truthiness and by the text `String(value)` produces for it. */
  datatype Value = JString(s: string) | JOther(truthy: bool, shown: string)

  /** The properties of a parsed document, by name. */
  type Document = map<string, Value>

  /** What reading a property that is not there gives. */
  const Undefined: Value := JOther(false, "undefined")

  /** `JSON.parse`: a document, or `None` where the source's `try` block throws (text
      that is not JSON, or the value `null`, whose properties cannot be read). */
  type Parser = string -> Option<Document>

  /** `doc[key]`. */
  function Get(doc: Document, key: string): Value
  {
    if key in doc then doc[key] else Undefined
  }

  /** JavaScript truthiness: a string is true when it is not empty. */
  predicate Truthy(v: Value)
  {
    match v
    case JString(s) => s != ""
    case JOther(t, _) => t
  }

  /** `String(v)`. */
  function Shown(v: Value): string
  {
    match v
    case JString(s) => s
    case JOther(_, shown) => shown
  }
}
