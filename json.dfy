/** JSON values (the `JToken` tree) and `JsonSerializeExtensions`.
    Text is parsed by a function the caller supplies (`parse`), standing for
    `JToken.Parse`: `None` is a `JsonReaderException`. Serialisation is the
    compact form `JsonConvert.SerializeObject` writes for a JSON tree. */
module Json {
  import opened Wrappers
  import opened Text

  datatype Json =
    | JNull
    | JBool(b: bool)
    | JNum(n: int)
    | JStr(s: string)
    | JArr(items: seq<Json>)
    | JObj(props: seq<(string, Json)>)

  type Parser = string -> Option<Json>

  /** An array of strings as JSON: each string a JSON string, in order. */
  function JStrs(ss: seq<string>): (r: seq<Json>)
    ensures |r| == |ss| && forall i :: 0 <= i < |ss| ==> r[i] == JStr(ss[i])
  {
    seq(|ss|, i requires 0 <= i < |ss| => JStr(ss[i]))
  }

  predicate IsContainer(j: Json) { j.JArr? || j.JObj? }

  /** `JToken.HasValues`: a container with at least one child. */
  predicate HasValues(j: Json) {
    (j.JArr? && j.items != []) || (j.JObj? && j.props != [])
  }

  /** `JsonSerializeExtensions.IsNullOrEmpty(token)` */
  predicate IsNullOrEmpty(token: Option<Json>) {
    match token
    case None => true
    case Some(t) =>
      (t.JArr? && t.items == []) || (t.JObj? && t.props == []) || (t.JStr? && t.s == "") || t.JNull?
  }

  /** Only null, empty containers and the empty string are "null or empty":
      every number and boolean, and every container with a child, is not. */
  lemma IsNullOrEmptyCases(t: Json)
    ensures IsContainer(t) ==> (IsNullOrEmpty(Some(t)) <==> !HasValues(t))
    ensures t.JNum? || t.JBool? ==> !IsNullOrEmpty(Some(t))
    ensures t.JStr? ==> (IsNullOrEmpty(Some(t)) <==> t.s == "")
  {
  }

  predicate Bracketed(t: string) {
    (StartsWith(t, "{") && EndsWith(t, "}")) || (StartsWith(t, "[") && EndsWith(t, "]"))
  }

  /** `ValidJson(value)`: non-blank, trimmed text framed by braces or brackets, which parses. */
  predicate ValidJson(value: Option<string>, parse: Parser) {
    match value
    case None => false
    case Some(v) => !Blank(v) && Bracketed(Trim(v)) && parse(Trim(v)).Some?
  }

  /** `HasJsonValue(value)`: parses (a null text does not) to a token with children. */
  predicate HasJsonValue(value: Option<string>, parse: Parser) {
    match value
    case None => false
    case Some(v) => parse(v).Some? && HasValues(parse(v).value)
  }

  /** Whatever the parser, text that does not open with a brace or bracket
      after trimming is never `ValidJson`: a bare JSON number or string is rejected. */
  lemma ValidJsonNeedsContainerText(v: string, parse: Parser)
    requires !Blank(v) && Trim(v)[0] != '{' && Trim(v)[0] != '['
    ensures !ValidJson(Some(v), parse)
  {
  }

  /** A value with JSON content is never "null or empty". */
  lemma HasJsonValueNotEmpty(v: string, parse: Parser)
    requires HasJsonValue(Some(v), parse)
    ensures !IsNullOrEmpty(parse(v))
  {
  }

  /** `ToJsonString(obj)`: null stays null. */
  function ToJsonString(obj: Option<Json>): (r: Option<string>)
    ensures r.None? <==> obj.None?
  {
    match obj
    case None => None
    case Some(j) => Some(Serialize(j))
  }

  /** `FromJsonString<T>(value)`: null gives `default(T)` (here `None`); otherwise
      the text is deserialised by `decode`, whose failure is thrown. */
  function FromJsonString<T, E>(value: Option<string>, decode: string -> Result<T, E>): (r: Result<Option<T>, E>)
    ensures value.None? ==> r == Success(None)
    ensures value.Some? ==> (r.Success? <==> decode(value.value).Success?)
    ensures value.Some? && r.Success? ==> r.value == Some(decode(value.value).value)
  {
    match value
    case None => Success(None)
    case Some(v) =>
      var t :- decode(v);
      Success(Some(t))
  }

  // ---- compact serialisation ----

  function HexDigit(d: nat): char
    requires d < 16
  {
    "0123456789abcdef"[d]
  }

  /** The characters the default string escaping writes as `\uXXXX`. */
  predicate UnicodeEscaped(c: char) {
    (c < ' ' && c != '\n' && c != '\r' && c != '\t' && c != '\U{8}' && c != '\U{C}')
    || c == '\U{85}' || c == '\U{2028}' || c == '\U{2029}'
  }

  function EscapeChar(c: char): (r: string)
    ensures |r| >= 1
    ensures r[0] == '\\' <==> (c == '"' || c == '\\' || c == '\n' || c == '\r' || c == '\t'
                               || c == '\U{8}' || c == '\U{C}' || UnicodeEscaped(c))
  {
    if c == '"' then "\\\""
    else if c == '\\' then "\\\\"
    else if c == '\n' then "\\n"
    else if c == '\r' then "\\r"
    else if c == '\t' then "\\t"
    else if c == '\U{8}' then "\\b"
    else if c == '\U{C}' then "\\f"
    else if UnicodeEscaped(c) then
      var n := c as int;
      "\\u" + [HexDigit(n / 4096), HexDigit(n / 256 % 16), HexDigit(n / 16 % 16), HexDigit(n % 16)]
    else [c]
  }

  function EscapeString(s: string): string {
    if s == [] then "" else EscapeChar(s[0]) + EscapeString(s[1..])
  }

  function Quote(s: string): (r: string)
    ensures |r| >= 2 && r[0] == '"' && r[|r| - 1] == '"'
  {
    "\"" + EscapeString(s) + "\""
  }

  /** The characters a serialised value can start or end with. */
  predicate JsonEdge(c: char) {
    c == '{' || c == '}' || c == '[' || c == ']' || c == '"' || c == '-'
    || c == 'n' || c == 'l' || c == 't' || c == 'e' || c == 'f' || IsDigit(c)
  }

  lemma JsonEdgeNotWhiteSpace(c: char)
    requires JsonEdge(c)
    ensures !IsWhiteSpace(c)
  {
  }

  function Serialize(j: Json): (r: string)
    ensures r != [] && !IsWhiteSpace(r[0]) && !IsWhiteSpace(r[|r| - 1])
    ensures j.JObj? ==> r[0] == '{' && r[|r| - 1] == '}'
    ensures j.JArr? ==> r[0] == '[' && r[|r| - 1] == ']'
  {
    var r := match j
      case JNull => "null"
      case JBool(b) => if b then "true" else "false"
      case JNum(n) => IntToString(n)
      case JStr(s) => Quote(s)
      case JArr(items) =>
        "[" + Join(",", seq(|items|, i requires 0 <= i < |items| => Serialize(items[i]))) + "]"
      case JObj(props) =>
        "{" + Join(",", seq(|props|, i requires 0 <= i < |props| => Quote(props[i].0) + ":" + Serialize(props[i].1))) + "}";
    assert JsonEdge(r[0]) && JsonEdge(r[|r| - 1]);
    JsonEdgeNotWhiteSpace(r[0]);
    JsonEdgeNotWhiteSpace(r[|r| - 1]);
    r
  }

  /** Serialised containers pass the shape test of `ValidJson`, and with a
      parser that reads back what was written, `ValidJson` holds and
      `HasJsonValue` holds exactly when the container has children. */
  lemma SerializedContainer(j: Json, parse: Parser)
    requires IsContainer(j)
    requires parse(Serialize(j)) == Some(j)
    ensures ValidJson(Some(Serialize(j)), parse)
    ensures HasJsonValue(Some(Serialize(j)), parse) <==> HasValues(j)
  {
    var s := Serialize(j);
    TrimUnchanged(s);
    assert !Blank(s) by { assert !IsWhiteSpace(s[0]); }
  }
}
