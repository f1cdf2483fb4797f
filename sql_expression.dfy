/** `SqlExpressionBuilder`: one query condition rendered as SQL text,
    `field operator value`, with literal values written inline. */
module SqlExpression {
  import opened Wrappers
  import opened Text
  import opened Values
  import opened StringFormat
  import opened EnumerableExtension
  import StringExtension

  datatype QueryOperator =
    | Equal | LessThan | LessThanOrEqual | GreaterThan | GreaterThanOrEqual
    | Like | In | Null | NotEqual

  /** `QueryOperatorToSqlOperators`: every operator but `Null` has an entry. */
  function SqlOperator(op: QueryOperator): (r: Option<string>)
    ensures r.None? <==> op == Null
  {
    match op
    case Equal => Some("=")
    case GreaterThan => Some(">")
    case GreaterThanOrEqual => Some(">=")
    case LessThan => Some("<")
    case LessThanOrEqual => Some("<=")
    case Like => Some("LIKE")
    case In => Some("IN")
    case NotEqual => Some("!=")
    case Null => None
  }

  /** The operator slot: `GetValueOrDefault` gives null for a missing entry,
      which interpolates as the empty string. */
  function OperatorText(op: QueryOperator): (r: string)
    ensures r == "" <==> op == Null
  {
    SqlOperator(op).GetOr("")
  }

  datatype QueryField = QueryField(tableName: Option<string>, fieldName: Option<string>)

  datatype QueryCondition = QueryCondition(field: QueryField, op: QueryOperator, value: QueryValue)

  /** `BuildField`: a back-quoted identifier, qualified by the table name
      unless that is blank.  A null field name interpolates as empty. */
  function BuildField(f: QueryField): (r: string)
    ensures |r| >= 2 && r[0] == '`' && r[|r| - 1] == '`'
    ensures StringExtension.IsNullOrWhiteSpace(f.tableName) ==> r[1..|r| - 1] == f.fieldName.GetOr("")
    ensures !StringExtension.IsNullOrWhiteSpace(f.tableName) ==>
      r[1..|r| - 1] == f.tableName.value + "." + f.fieldName.GetOr("")
  {
    if StringExtension.IsNullOrWhiteSpace(f.tableName) then "`" + f.fieldName.GetOr("") + "`"
    else "`" + f.tableName.value + "." + f.fieldName.GetOr("") + "`"
  }

  // ---- String literals ----

  /** How MySQL reads an escape sequence `\c` inside a quoted literal
      (default SQL mode): `\%` and `\_` keep their backslash, unknown
      sequences drop it. */
  function EscapeSequence(c: char): string {
    match c
    case '0' => "\0"
    case '\'' => "'"
    case '"' => "\""
    case 'b' => "\U{0008}"
    case 'n' => "\n"
    case 'r' => "\r"
    case 't' => "\t"
    case 'Z' => "\U{001A}"
    case '\\' => "\\"
    case '%' => "\\%"
    case '_' => "\\_"
    case _ => [c]
  }

  /** How MySQL reads a single-quoted literal starting just after its opening
      quote: the value, and the text after the closing quote; `None` when the
      literal is never closed.  `''` inside the literal stands for one quote. */
  function ReadQuoted(t: string): Option<(string, string)>
    decreases |t|
  {
    if t == [] then None
    else if t[0] == '\\' then
      if |t| == 1 then None
      else match ReadQuoted(t[2..])
        case None => None
        case Some((v, rest)) => Some((EscapeSequence(t[1]) + v, rest))
    else if t[0] == '\'' then
      if |t| >= 2 && t[1] == '\'' then
        match ReadQuoted(t[2..])
        case None => None
        case Some((v, rest)) => Some(("'" + v, rest))
      else Some(([], t[1..]))
    else match ReadQuoted(t[1..])
      case None => None
      case Some((v, rest)) => Some(([t[0]] + v, rest))
  }

  /** The escaping the source applies: `value.Replace("'", "\'")`. */
  function EscapeQuotes(s: string): string {
    ReplaceAll(s, "'", "\\'")
  }

  /** `BuildValue(string)` as written: a value containing `UNHEX` is passed
      through raw, any other is quoted with its quotes escaped. */
  function BuildStringValueAsWritten(s: string): string {
    if Contains(s, "UNHEX") then s else "'" + EscapeQuotes(s) + "'"
  }

  /** The escaping a MySQL literal needs: backslashes first, then quotes. */
  function EscapeLiteral(s: string): string {
    EscapeQuotes(ReplaceAll(s, "\\", "\\\\"))
  }

  /** `BuildValue(string)` with backslashes escaped as well. */
  function BuildStringValue(s: string): (r: string)
    ensures !Blank(r)
  {
    if Contains(s, "UNHEX") then
      var m := "UNHEX";
      assert !IsWhiteSpace(m[0]);
      ContainsNonBlank(s, m);
      s
    else
      var r := "'" + EscapeLiteral(s) + "'";
      assert r[0] == '\'';
      r
  }

  lemma {:induction false} ContainsNonBlank(s: string, p: string)
    requires Contains(s, p) && !Blank(p)
    ensures !Blank(s)
    decreases |s|
  {
    if StartsWith(s, p) {
      var i :| 0 <= i < |p| && !IsWhiteSpace(p[i]);
      assert s[i] == p[i];
    } else {
      ContainsNonBlank(s[1..], p);
      var i :| 0 <= i < |s[1..]| && !IsWhiteSpace(s[1..][i]);
      assert s[i + 1] == s[1..][i];
    }
  }

  /** Backslash and quote escaped in one pass. */
  function EscapeBoth(s: string): string {
    if s == [] then []
    else (if s[0] == '\\' then "\\\\" else if s[0] == '\'' then "\\'" else [s[0]]) + EscapeBoth(s[1..])
  }

  lemma {:induction false} EscapeBothOfReplaced(s: string)
    ensures ReplaceChar(ReplaceChar(s, '\\', "\\\\"), '\'', "\\'") == EscapeBoth(s)
  {
    if s != [] {
      var head := if s[0] == '\\' then "\\\\" else [s[0]];
      assert ReplaceChar(s, '\\', "\\\\") == head + ReplaceChar(s[1..], '\\', "\\\\");
      ReplaceCharConcat(head, ReplaceChar(s[1..], '\\', "\\\\"), '\'', "\\'");
      assert ReplaceChar(head, '\'', "\\'") == (if s[0] == '\\' then "\\\\" else if s[0] == '\'' then "\\'" else [s[0]]) by {
        if s[0] == '\\' {
          assert head[1..][1..] == [];
        }
      }
      EscapeBothOfReplaced(s[1..]);
    }
  }

  lemma EscapeLiteralIsEscapeBoth(s: string)
    ensures EscapeLiteral(s) == EscapeBoth(s)
  {
    var bs: string := "\\";
    var qs: string := "'";
    assert bs == ['\\'] && qs == ['\''];
    ReplaceAllOneChar(s, '\\', "\\\\");
    ReplaceAllOneChar(ReplaceChar(s, '\\', "\\\\"), '\'', "\\'");
    EscapeBothOfReplaced(s);
  }

  /** MySQL reads a literal written by the escaping back as the original
      value, and stops exactly at the closing quote. */
  lemma {:induction false} ReadQuotedEscapeBoth(s: string, rest: string)
    requires rest == [] || rest[0] != '\''
    ensures ReadQuoted(EscapeBoth(s) + "'" + rest) == Some((s, rest))
  {
    if s == [] {
      var t := EscapeBoth(s) + "'" + rest;
      assert t == "'" + rest;
      assert t[1..] == rest;
    } else {
      ReadQuotedEscapeBoth(s[1..], rest);
      ReadQuotedEscapeBothStep(s, rest);
    }
  }

  /** The inductive step: one more character in front of the value. */
  lemma ReadQuotedEscapeBothStep(s: string, rest: string)
    requires s != [] && ReadQuoted(EscapeBoth(s[1..]) + "'" + rest) == Some((s[1..], rest))
    ensures ReadQuoted(EscapeBoth(s) + "'" + rest) == Some((s, rest))
  {
    var tail := EscapeBoth(s[1..]) + "'" + rest;
    if s[0] == '\\' || s[0] == '\'' {
      EscapedHead(s, rest);
      ReadEscapedChar(s[0], tail, s[1..], rest);
    } else {
      PlainHead(s, rest);
      ReadPlainChar(s[0], tail, s[1..], rest);
    }
  }

  lemma EscapedHead(s: string, rest: string)
    requires s != [] && (s[0] == '\\' || s[0] == '\'')
    ensures EscapeBoth(s) + "'" + rest == ['\\', s[0]] + (EscapeBoth(s[1..]) + "'" + rest)
    ensures s == [s[0]] + s[1..]
  {
    assert EscapeBoth(s) == ['\\', s[0]] + EscapeBoth(s[1..]);
  }

  lemma PlainHead(s: string, rest: string)
    requires s != [] && s[0] != '\\' && s[0] != '\''
    ensures EscapeBoth(s) + "'" + rest == [s[0]] + (EscapeBoth(s[1..]) + "'" + rest)
    ensures s == [s[0]] + s[1..]
  {
    assert EscapeBoth(s) == [s[0]] + EscapeBoth(s[1..]);
  }

  /** One step of `ReadQuoted`: a backslash followed by a quote or a backslash
      stands for that character. */
  lemma ReadEscapedChar(c: char, tail: string, v: string, rest: string)
    requires c == '\\' || c == '\''
    requires ReadQuoted(tail) == Some((v, rest))
    ensures ReadQuoted(['\\', c] + tail) == Some(([c] + v, rest))
  {
    var t := ['\\', c] + tail;
    assert t[2..] == tail;
    assert EscapeSequence(c) == [c];
  }

  /** One step of `ReadQuoted`: a character other than a quote or a backslash
      stands for itself. */
  lemma ReadPlainChar(c: char, tail: string, v: string, rest: string)
    requires c != '\\' && c != '\''
    requires ReadQuoted(tail) == Some((v, rest))
    ensures ReadQuoted([c] + tail) == Some(([c] + v, rest))
  {
    var t := [c] + tail;
    assert t[1..] == tail;
  }

  /** The quoted form of a value without `UNHEX` is read back by MySQL as
      exactly that value, whatever quotes or backslashes it holds. */
  lemma StringLiteralRoundTrip(s: string, rest: string)
    requires !Contains(s, "UNHEX")
    requires rest == [] || rest[0] != '\''
    ensures BuildStringValue(s)[0] == '\''
    ensures ReadQuoted(BuildStringValue(s)[1..] + rest) == Some((s, rest))
  {
    EscapeLiteralIsEscapeBoth(s);
    var r := BuildStringValue(s);
    assert r[1..] == EscapeBoth(s) + "'";
    ReadQuotedEscapeBoth(s, rest);
  }

  /** A value holding `UNHEX` is emitted as it is. */
  lemma UnHexPassThrough(v: string)
    ensures BuildStringValue(UnHex(v)) == UnHex(v)
  {
    UnHexContainsMarker(v);
  }

  /** With the source's escaping a single backslash escapes the closing quote,
      so the literal runs on into the text after it. */
  lemma AsWrittenBackslashLiteral(s: string)
    requires s == "\\"
    ensures BuildStringValueAsWritten(s) == "'\\'"
    ensures ReadQuoted(BuildStringValueAsWritten(s)[1..] + " AND 1=1") == None
    ensures ReadQuoted(BuildStringValue(s)[1..] + " AND 1=1") == Some((s, " AND 1=1"))
  {
    BackslashHasNoQuote(s);
    var u := " AND 1=1";
    TrailingConditionUnclosed(u);
    assert BuildStringValueAsWritten(s)[1..] + u == ['\\', '\''] + u;
    ReadEscapedUnclosed('\'', u);
    StringLiteralRoundTrip(s, u);
  }

  /** A lone backslash holds neither a quote nor `UNHEX`, so the source's
      escaping leaves it as it is. */
  lemma BackslashHasNoQuote(s: string)
    requires s == "\\"
    ensures !Contains(s, "UNHEX") && EscapeQuotes(s) == s
  {
    var qs: string := "'";
    assert qs == ['\''];
    ReplaceAllOneChar(s, '\'', "\\'");
  }

  /** Text holding no quote and no backslash never closes a literal. */
  lemma {:induction false} NoQuoteUnclosed(u: string)
    requires forall i :: 0 <= i < |u| ==> u[i] != '\'' && u[i] != '\\'
    ensures ReadQuoted(u) == None
  {
    if u != [] {
      assert forall i :: 0 <= i < |u[1..]| ==> u[1..][i] == u[i + 1];
      NoQuoteUnclosed(u[1..]);
    }
  }

  lemma TrailingConditionUnclosed(u: string)
    requires u == " AND 1=1"
    ensures ReadQuoted(u) == None
  {
    assert forall i :: 0 <= i < |u| ==> u[i] != '\'' && u[i] != '\\';
    NoQuoteUnclosed(u);
  }

  /** An escaped character in front of an unclosed literal leaves it unclosed. */
  lemma ReadEscapedUnclosed(c: char, tail: string)
    requires ReadQuoted(tail) == None
    ensures ReadQuoted(['\\', c] + tail) == None
  {
    assert (['\\', c] + tail)[2..] == tail;
  }

  // ---- Values ----

  /** `OfType<string>()` */
  function StringsOf(items: seq<Obj>): (r: seq<string>)
    ensures |r| <= |items|
  {
    if items == [] then []
    else (if items[0].OStr? then [items[0].s] else []) + StringsOf(items[1..])
  }

  function BuildStringValues(values: seq<string>): (r: seq<string>)
    ensures |r| == |values| && forall i :: 0 <= i < |values| ==> r[i] == BuildStringValue(values[i])
  {
    seq(|values|, i requires 0 <= i < |values| => BuildStringValue(values[i]))
  }

  /** `BuildValue(IEnumerable)` */
  function BuildListValue(items: seq<Obj>): string {
    WrapCurlyBracket(JoinNotEmpty(BuildStringValues(StringsOf(items)), ","))
  }

  /** No string element of a list is lost: each renders non-blank, so
      `JoinNotEmpty` keeps all of them, comma-separated in order. */
  lemma ListValueKeepsEveryString(items: seq<Obj>)
    ensures BuildListValue(items) == "(" + Join(",", BuildStringValues(StringsOf(items))) + ")"
  {
    NonBlankNoneBlank(BuildStringValues(StringsOf(items)));
  }

  /** `BuildValue(QueryValue)`: null, then strings, then other enumerables,
      then `Convert.ToString` with the invariant culture. */
  function BuildValue(v: Obj): (r: string)
    ensures v.ONull? ==> r == "NULL"
    ensures v.OStr? ==> r == BuildStringValue(v.s)
    ensures v.OList? ==> r == BuildListValue(v.items)
  {
    match v
    case ONull => "NULL"
    case OStr(s) => BuildStringValue(s)
    case OList(_, items) => BuildListValue(items)
    case _ => ToText(v)
  }

  /** `BuildCondition`: `field op value`.  The rendering starts with the
      back-quoted field, so it is never blank. */
  function BuildCondition(c: QueryCondition): (r: string)
    ensures StartsWith(r, BuildField(c.field) + " ") && !Blank(r)
  {
    var r := BuildField(c.field) + " " + OperatorText(c.op) + " " + BuildValue(c.value.value);
    assert r[0] == '`';
    r
  }
}
