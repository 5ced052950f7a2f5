/** A YAML document after it has been loaded: the tree that the spec-file
    parser walks. Hashes keep their entries in document order, as the
    loader's insertion-ordered map does. */
module YamlTree {
  import opened Wrappers

  datatype Yaml =
    | Real(text: string)
    | Integer(number: int)
    | String(text: string)
    | Boolean(flag: bool)
    | Array(items: seq<Yaml>)
    | Hash(entries: seq<(Yaml, Yaml)>)
    | Alias(id: nat)
    | Null
    | BadValue

  /** The entries of a hash, or None for any other node. */
  function AsHash(y: Yaml): (r: Option<seq<(Yaml, Yaml)>>)
    ensures r.Some? <==> y.Hash?
    ensures r.Some? ==> r.value == y.entries
  {
    match y
    case Hash(entries) => Some(entries)
    case _ => None
  }

  /** True when some entry of the hash has the string key `k`. */
  predicate HasKey(entries: seq<(Yaml, Yaml)>, k: string) {
    exists i :: 0 <= i < |entries| && entries[i].0 == String(k)
  }

  /** Decimal text of a natural number. */
  function NatText(n: nat): (r: string)
    ensures |r| > 0
    decreases n
  {
    var digit := ['0' + (n % 10) as char];
    if n < 10 then digit else NatText(n / 10) + digit
  }

  function IntText(i: int): string {
    if i < 0 then "-" + NatText(-i) else NatText(i)
  }

  /** A string in Rust's `{:?}` form: quoted, with quotes, backslashes and
      the common control characters escaped. */
  function QuotedText(s: string): string {
    "\"" + EscapedText(s) + "\""
  }

  function EscapedText(s: string): string
    decreases |s|
  {
    if s == [] then ""
    else
      var c := s[0];
      var e := if c == '"' then "\\\""
               else if c == '\\' then "\\\\"
               else if c == '\n' then "\\n"
               else if c == '\r' then "\\r"
               else if c == '\t' then "\\t"
               else [c];
      e + EscapedText(s[1..])
  }

  /** The text the parser puts in its error messages for a node (the
      loader's `{:?}` rendering of it). */
  function DebugText(y: Yaml): string
    decreases y, 1, 0
  {
    match y
    case Real(t) => "Real(" + QuotedText(t) + ")"
    case Integer(n) => "Integer(" + IntText(n) + ")"
    case String(t) => "String(" + QuotedText(t) + ")"
    case Boolean(b) => if b then "Boolean(true)" else "Boolean(false)"
    case Array(items) => "Array([" + DebugItems(y, 0) + "])"
    case Hash(entries) => "Hash({" + DebugEntries(y, 0) + "})"
    case Alias(id) => "Alias(" + NatText(id) + ")"
    case Null => "Null"
    case BadValue => "BadValue"
  }

  function DebugItems(y: Yaml, i: nat): string
    requires y.Array? && i <= |y.items|
    decreases y, 0, |y.items| - i
  {
    if i == |y.items| then ""
    else
      var sep := if i == 0 then "" else ", ";
      sep + DebugText(y.items[i]) + DebugItems(y, i + 1)
  }

  function DebugEntries(y: Yaml, i: nat): string
    requires y.Hash? && i <= |y.entries|
    decreases y, 0, |y.entries| - i
  {
    if i == |y.entries| then ""
    else
      var sep := if i == 0 then "" else ", ";
      var e := y.entries[i];
      sep + DebugText(e.0) + ": " + DebugText(e.1) + DebugEntries(y, i + 1)
  }
}
