/** Boxed CLR values as the query and command layers pass them around
    (`object` parameters, `DbParameter.Value`), and `QueryValue`. */
module Values {
  import opened Wrappers
  import opened Text

  /** The runtime type a `QueryValue` records (`value.GetType()`). */
  datatype ClrType = TString | TInt32 | TBoolean | TDBNull | TEnumerable(name: string) | TQueryValue

  datatype Obj =
    | ONull                                    // a C# null reference
    | ODBNull                                  // DBNull.Value
    | OStr(s: string)
    | OInt(i: int)
    | OBool(b: bool)
    | OList(typeName: string, items: seq<Obj>) // any non-string IEnumerable
    | OQuery(q: QueryValue)                    // a QueryValue passed on as an object

  /** `QueryValue`: the value and its runtime type. */
  datatype QueryValue = QueryValue(value: Obj, ty: ClrType)

  datatype QueryValueError = NullValue   // NullReferenceException from `value.GetType()`

  function TypeOf(v: Obj): ClrType
    requires !v.ONull?
  {
    match v
    case ODBNull => TDBNull
    case OStr(_) => TString
    case OInt(_) => TInt32
    case OBool(_) => TBoolean
    case OList(name, _) => TEnumerable(name)
    case OQuery(_) => TQueryValue
  }

  /** `new QueryValue(value)`: keeps the value and records its type; a null
      value is dereferenced and fails. */
  function NewQueryValue(v: Obj): (r: Result<QueryValue, QueryValueError>)
    ensures r.Failure? <==> v.ONull?
    ensures r.Success? ==> r.value.value == v && r.value.ty == TypeOf(v)
  {
    if v.ONull? then Failure(NullValue) else Success(QueryValue(v, TypeOf(v)))
  }

  /** `QueryValue.UnHex(v)` */
  function UnHex(v: string): (r: string)
    ensures |r| == |v| + 9 && StartsWith(r, "UNHEX('") && EndsWith(r, "')") && r[7..|r| - 2] == v
  {
    "UNHEX('" + v + "')"
  }

  /** The `UNHEX` marker is in every `UnHex` result. */
  lemma UnHexContainsMarker(v: string)
    ensures Contains(UnHex(v), "UNHEX")
  {
    var m, rest := "UNHEX", "('" + v + "')";
    assert UnHex(v) == [] + m + rest;
    ContainsInfix([], m, rest);
  }

  /** `Convert.ToString(o, CultureInfo.InvariantCulture)` / `o.ToString()`. */
  function ToText(o: Obj): string {
    match o
    case ONull => ""
    case ODBNull => ""
    case OStr(s) => s
    case OInt(i) => IntToString(i)
    case OBool(b) => if b then "True" else "False"
    case OList(name, _) => name
    case OQuery(_) => "DataVault.Query.QueryValue"
  }
}
