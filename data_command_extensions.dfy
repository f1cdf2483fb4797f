/** `DataCommandExtensions`: the parameters the fluent helpers create, the
    text that describes a command (`GetCommandString`) and the exception a
    failed command is reported with (`CreateDataException`). */
module DataCommandExtensions {
  import opened Wrappers
  import opened Text
  import opened Values
  import opened Exceptions

  /** `Environment.NewLine`, taken as the Unix line feed. */
  const NewLine := "\n"

  /** `System.Data.ParameterDirection` */
  datatype Direction = Input | Output | InputOutput | ReturnValue

  /** `GetUnderlyingType().ToDbType()` of a CLR type, or `DbType.Object`. */
  datatype DbType = DbObject | DbOfType(clr: ClrType)

  /** A `DbParameter`: `size` is 0 unless set. */
  datatype DbParameter = DbParameter(name: string, value: Obj, dbType: DbType, direction: Direction, size: int)

  /** `value ?? DBNull.Value` */
  function ToDbValue(value: Obj): (r: Obj)
    ensures r != ONull
    ensures value != ONull ==> r == value
  {
    if value.ONull? then ODBNull else value
  }

  /** `Parameter<TParameter>(name, value)`: the type of a non-null value,
      otherwise the declared type, decides the database type. */
  function InputParameter(name: string, value: Obj, declared: ClrType): (r: DbParameter)
    ensures r.direction == Input && r.name == name && r.value == ToDbValue(value)
    ensures r.dbType == DbOfType(if value.ONull? then declared else TypeOf(value))
  {
    DbParameter(name, ToDbValue(value), DbOfType(if value.ONull? then declared else TypeOf(value)), Input, 0)
  }

  /** `Parameter(name, object value)`: a null value is typed `DbType.Object`. */
  function InputObjectParameter(name: string, value: Obj): (r: DbParameter)
    ensures r.direction == Input && r.name == name && r.value == ToDbValue(value)
    ensures value.ONull? <==> r.dbType == DbObject
  {
    DbParameter(name, ToDbValue(value), if value.ONull? then DbObject else DbOfType(TypeOf(value)), Input, 0)
  }

  /** `ParameterOut<TParameter>(name, callback)`: no value, size -1 (MAX). */
  function OutputParameter(name: string, declared: ClrType): (r: DbParameter)
    ensures r.direction == Output && r.size == -1 && r.name == name && r.value == ONull && r.dbType == DbOfType(declared)
  {
    DbParameter(name, ONull, DbOfType(declared), Output, -1)
  }

  /** `ParameterOut<TParameter>(name, value, callback)`: the initial value goes in. */
  function InputOutputParameter(name: string, value: Obj, declared: ClrType): (r: DbParameter)
    ensures r.direction == InputOutput && r.name == name && r.value == ToDbValue(value) && r.dbType == DbOfType(declared)
  {
    DbParameter(name, ToDbValue(value), DbOfType(declared), InputOutput, 0)
  }

  const ReturnValueName := "@ReturnValue"

  /** `Return<TParameter>(callback)` */
  function ReturnParameter(declared: ClrType): (r: DbParameter)
    ensures r.direction == ReturnValue && r.name == "@ReturnValue" && r.value == ONull
  {
    DbParameter(ReturnValueName, ONull, DbOfType(declared), ReturnValue, 0)
  }

  /** A parameter value in the command description: null reads `NULL`. */
  function ValueText(value: Obj): (r: string)
    ensures value.ONull? ==> r == "NULL"
    ensures !value.ONull? ==> r == ToText(value)
  {
    if value.ONull? then "NULL" else ToText(value)
  }

  function ParameterLine(p: DbParameter): string {
    NewLine + p.name + ": " + ValueText(p.value)
  }

  /** The parameter lines, in order. */
  function ParameterLines(ps: seq<DbParameter>): (r: string)
    decreases |ps|
  {
    if ps == [] then "" else ParameterLines(ps[..|ps| - 1]) + ParameterLine(ps[|ps| - 1])
  }

  function Header(database: string, text: string): string {
    NewLine + "Query: " + "[" + database + "].[" + text + "]"
  }

  /** The description `GetCommandString` builds. */
  function CommandString(database: string, text: string, ps: seq<DbParameter>): string {
    Header(database, text) + ParameterLines(ps)
  }

  /** Adding a parameter adds its line at the end of the description. */
  lemma CommandStringAppend(database: string, text: string, ps: seq<DbParameter>, p: DbParameter)
    ensures CommandString(database, text, ps + [p])
         == CommandString(database, text, ps) + NewLine + p.name + ": " + ValueText(p.value)
  {
    assert (ps + [p])[..|ps|] == ps;
  }

  /** One description line per parameter, in parameter order. */
  function LinesOf(ps: seq<DbParameter>): (r: seq<string>)
    ensures |r| == |ps|
    ensures forall i :: 0 <= i < |ps| ==> r[i] == NewLine + ps[i].name + ": " + ValueText(ps[i].value)
  {
    seq(|ps|, i requires 0 <= i < |ps| => ParameterLine(ps[i]))
  }

  lemma LinesOfSnoc(ps: seq<DbParameter>)
    requires ps != []
    ensures LinesOf(ps) == LinesOf(ps[..|ps| - 1]) + [ParameterLine(ps[|ps| - 1])]
  {
  }

  /** The description is the query line followed by one `name: value` line
      per parameter, in parameter order, each starting a new line. */
  lemma CommandStringShape(database: string, text: string, ps: seq<DbParameter>)
    ensures CommandString(database, text, ps) == Header(database, text) + Concat(LinesOf(ps))
  {
    ParameterLinesShape(ps);
  }

  lemma {:induction false} ParameterLinesShape(ps: seq<DbParameter>)
    ensures ParameterLines(ps) == Concat(LinesOf(ps))
    decreases |ps|
  {
    if ps != [] {
      var init := ps[..|ps| - 1];
      ParameterLinesShape(init);
      LinesOfSnoc(ps);
      ConcatAppend(LinesOf(init), ParameterLine(ps[|ps| - 1]));
    }
  }

  /** `GetCommandString`: the query line, then a line per parameter. */
  method GetCommandString(database: string, text: string, ps: seq<DbParameter>) returns (str: string)
    ensures str == CommandString(database, text, ps)
  {
    str := NewLine + "Query: " + "[" + database + "].[" + text + "]";
    for i := 0 to |ps|
      invariant str == CommandString(database, text, ps[..i])
    {
      CommandStringAppend(database, text, ps[..i], ps[i]);
      assert ps[..i + 1] == ps[..i] + [ps[i]];
      str := str + NewLine + ps[i].name + ": " + ValueText(ps[i].value);
    }
    assert ps[..|ps|] == ps;
  }

  predicate IsLineBreak(c: char) { c == '\r' || c == '\n' }

  /** `IndexOfAny(new[] { '\r', '\n' })`, -1 when there is none. */
  function IndexOfLineBreak(s: string): (r: int)
    ensures -1 <= r < |s|
    ensures r == -1 <==> forall i :: 0 <= i < |s| ==> !IsLineBreak(s[i])
    ensures r >= 0 ==> IsLineBreak(s[r]) && forall i :: 0 <= i < r ==> !IsLineBreak(s[i])
  {
    if s == [] then -1
    else if IsLineBreak(s[0]) then 0
    else
      var k := IndexOfLineBreak(s[1..]);
      if k == -1 then -1 else k + 1
  }

  /** The message up to its first line break. */
  function FirstLine(s: string): (r: string)
    ensures |r| <= |s| && r == s[..|r|]
    ensures forall i :: 0 <= i < |r| ==> !IsLineBreak(r[i])
    ensures |r| < |s| ==> IsLineBreak(s[|r|])
  {
    var pos := IndexOfLineBreak(s);
    if pos == -1 then s else s[..pos]
  }

  const NullReferenceMessage := "Object reference not set to an instance of an object."

  /** `CreateDataException(inner)`: with no command text the original
      exception goes on unchanged; otherwise an `AggregateException` is
      looked through, and the first line of the message is followed by the
      command description in a `DataException` wrapping the original. */
  function CreateDataException(text: string, database: string, ps: seq<DbParameter>, inner: Exn): (r: Exn)
    ensures text == "" ==> r == inner
    ensures text != "" && !inner.kind.Aggregate? ==>
      r == Exn(DataError, FirstLine(inner.message) + CommandString(database, text, ps), Some(inner))
    ensures text != "" && inner.kind.Aggregate? && inner.inner.Some? ==>
      r == Exn(DataError, FirstLine(inner.inner.value.message) + CommandString(database, text, ps), Some(inner))
    ensures text != "" && inner.kind.Aggregate? && inner.inner.None? ==> r.kind == NullReference
  {
    if text == "" then inner
    else
      var analyzed := if inner.kind.Aggregate? then inner.inner else Some(inner);
      match analyzed
      case None => Raise(NullReference, NullReferenceMessage)
      case Some(e) => Exn(DataError, FirstLine(e.message) + CommandString(database, text, ps), Some(inner))
  }

  /** A wrapped message keeps the whole first line of the cause, has no line
      break before the description, and ends with the description. */
  lemma CreateDataExceptionMessage(text: string, database: string, ps: seq<DbParameter>, inner: Exn)
    requires text != "" && !inner.kind.Aggregate?
    ensures var m := CreateDataException(text, database, ps, inner).message;
      EndsWith(m, CommandString(database, text, ps)) &&
      StartsWith(inner.message, m[..|m| - |CommandString(database, text, ps)|]) &&
      (forall i :: 0 <= i < |m| - |CommandString(database, text, ps)| ==> !IsLineBreak(m[i]))
    ensures (forall i :: 0 <= i < |inner.message| ==> !IsLineBreak(inner.message[i])) ==>
      CreateDataException(text, database, ps, inner).message == inner.message + CommandString(database, text, ps)
  {
    var f := FirstLine(inner.message);
    var c := CommandString(database, text, ps);
    var m := f + c;
    assert m[..|m| - |c|] == f;
    assert m[|m| - |c|..] == c;
  }
}
