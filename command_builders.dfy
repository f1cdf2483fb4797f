/** The text command builders: `DataCommandBuilder` collects a table, columns
    with their values and a where-builder; `SelectCommandBuilder`,
    `InsertCommandBuilder` and `UpdateCommandBuilder` turn them into the SQL
    text and the parameters of a command of the context's session.
    `Parameters` is a dictionary that keeps insertion order. */
module CommandBuilders {
  import opened Wrappers
  import opened Text
  import opened Values
  import opened Exceptions
  import opened SqlExpression
  import QP = QueryPredicates
  import opened QueryWhere
  import opened EnumerableExtension
  import StringExtension
  import FlatJson
  import opened DataCommandExtensions
  import opened DataCommands
  import opened DataContexts

  type Params = seq<(string, Obj)>

  predicate HasKey(ps: Params, key: string) {
    exists i :: 0 <= i < |ps| && ps[i].0 == key
  }

  /** A dictionary: no key twice. */
  predicate DistinctKeys(ps: Params) {
    forall i, j :: 0 <= i < j < |ps| ==> ps[i].0 != ps[j].0
  }

  function Keys(ps: Params): (r: seq<string>)
    ensures |r| == |ps| && forall i :: 0 <= i < |ps| ==> r[i] == ps[i].0
  {
    seq(|ps|, i requires 0 <= i < |ps| => ps[i].0)
  }

  /** `Parameters.AddIfNotContains(name, value)` on the builder's dictionary. */
  function AddParameter(ps: Params, name: string, value: Obj): (r: Params)
    ensures HasKey(ps, name) ==> r == ps
    ensures !HasKey(ps, name) ==> r == ps + [(name, value)]
  {
    FlatJson.AddIfNotContains(Some(ps), name, value).value.1
  }

  /** Adding keeps the keys distinct, and the first value given for a name
      is the one kept. */
  lemma AddParameterKeepsDictionary(ps: Params, name: string, value: Obj)
    requires DistinctKeys(ps)
    ensures DistinctKeys(AddParameter(ps, name, value))
    ensures HasKey(AddParameter(ps, name, value), name)
    ensures forall i :: 0 <= i < |ps| ==> AddParameter(ps, name, value)[i] == ps[i]
  {
    if !HasKey(ps, name) {
      assert AddParameter(ps, name, value)[|ps|].0 == name;
    }
  }

  const WherePrefix := "@where"

  /** The parameters `AddWhereParams` adds: one per condition, named after
      its field, holding the condition's `QueryValue`. */
  function WhereParams(entries: seq<QP.Entry>): (r: seq<DbParameter>)
    ensures |r| == |entries|
    ensures forall i :: 0 <= i < |entries| ==>
      r[i] == InputParameter(WherePrefix + entries[i].0.field.fieldName.GetOr(""), OQuery(entries[i].0.value), TQueryValue)
  {
    seq(|entries|, i requires 0 <= i < |entries| =>
      InputParameter(WherePrefix + entries[i].0.field.fieldName.GetOr(""), OQuery(entries[i].0.value), TQueryValue))
  }

  /** The column parameters, each through `Parameter(name, object value)`. */
  function ObjectParams(ps: Params): (r: seq<DbParameter>)
    ensures |r| == |ps|
    ensures forall i :: 0 <= i < |ps| ==> r[i] == InputObjectParameter(ps[i].0, ps[i].1)
  {
    seq(|ps|, i requires 0 <= i < |ps| => InputObjectParameter(ps[i].0, ps[i].1))
  }

  function WhereFrame(w: Option<WhereBuilder>): set<object> {
    if w.Some? then {w.value} else {}
  }

  /** `WhereString` */
  function WhereText(w: Option<WhereBuilder>): (r: string)
    reads WhereFrame(w)
    ensures w.None? ==> r == ""
    ensures w.Some? ==> r == " WHERE " + w.value.Build()
  {
    if w.None? then "" else " WHERE " + w.value.Build()
  }

  class DataCommandBuilder {
    var table: Option<string>
    var columns: seq<string>
    var parameters: Params
    var where: Option<WhereBuilder>

    constructor ()
      ensures table.None? && columns == [] && parameters == [] && where.None?
    {
      table := None;
      columns := [];
      parameters := [];
      where := None;
    }

    predicate Valid()
      reads this
    {
      DistinctKeys(parameters)
    }

    /** `From(table)`: only the table changes. */
    method From(name: Option<string>)
      modifies this
      ensures table == name
      ensures columns == old(columns) && parameters == old(parameters) && where == old(where)
    {
      table := name;
    }

    /** `Column(name, value)`: the name always joins the column list; the
        value is recorded only for a name not seen before. */
    method Column(name: string, value: Obj)
      requires Valid()
      modifies this
      ensures Valid()
      ensures columns == old(columns) + [name]
      ensures parameters == AddParameter(old(parameters), name, value)
      ensures table == old(table) && where == old(where)
    {
      AddParameterKeepsDictionary(parameters, name, value);
      columns := columns + [name];
      parameters := AddParameter(parameters, name, value);
    }

    /** `Where(builder)` and `Where(factory)`: the builder replaces any earlier one. */
    method Where(builder: Option<WhereBuilder>)
      modifies this
      ensures where == builder
      ensures table == old(table) && columns == old(columns) && parameters == old(parameters)
    {
      where := builder;
    }

    /** `WhereId(id)`: the single condition `id = id`. */
    method WhereId(id: int)
      modifies this
      ensures where.Some? && fresh(where.value)
      ensures where.value.queryConditions == [(WhereCondition("id", Equal, OInt(id)).value, QP.QueryLogicOperator.None)]
      ensures table == old(table) && columns == old(columns) && parameters == old(parameters)
    {
      var b := WhereBuilder.New("id", Equal, OInt(id));
      where := Some(b.value);
    }

    /** `AddWhereParams(command)`: one parameter per condition, in order; with
        no where-builder the loop dereferences null. */
    method AddWhereParams(command: DataCommand) returns (r: Result<(), Exn>)
      modifies command
      ensures where.None? ==> r == Failure(Raise(NullReference, NullReferenceMessage)) && unchanged(command)
      ensures where.Some? ==> r.Success? && command.parameters == old(command.parameters) + WhereParams(where.value.queryConditions)
      ensures command.callbacks == old(command.callbacks) && command.invoked == old(command.invoked)
      ensures command.commandText == old(command.commandText) && command.commandType == old(command.commandType)
    ensures command.disposed == old(command.disposed)
    {
      if where.None? {
        return Failure(Raise(NullReference, NullReferenceMessage));
      }
      var conditions := where.value.queryConditions;
      for i := 0 to |conditions|
        invariant command.parameters == old(command.parameters) + WhereParams(conditions[..i])
        invariant command.callbacks == old(command.callbacks) && command.invoked == old(command.invoked)
        invariant command.commandText == old(command.commandText) && command.commandType == old(command.commandType)
        invariant command.disposed == old(command.disposed)
      {
        var c := conditions[i].0;
        AddInput(command, WherePrefix + c.field.fieldName.GetOr(""), OQuery(c.value), TQueryValue);
        assert WhereParams(conditions[..i + 1]) == WhereParams(conditions[..i]) + WhereParams([conditions[i]]);
      }
      assert conditions[..|conditions|] == conditions;
      r := Success(());
    }
  }

  /** Adds the column parameters to the command, in dictionary order. */
  method AddObjectParams(command: DataCommand, ps: Params)
    modifies command
    ensures command.parameters == old(command.parameters) + ObjectParams(ps)
    ensures command.callbacks == old(command.callbacks) && command.invoked == old(command.invoked)
    ensures command.commandText == old(command.commandText) && command.commandType == old(command.commandType)
    ensures command.disposed == old(command.disposed)
  {
    for i := 0 to |ps|
      invariant command.parameters == old(command.parameters) + ObjectParams(ps[..i])
      invariant command.callbacks == old(command.callbacks) && command.invoked == old(command.invoked)
      invariant command.commandText == old(command.commandText) && command.commandType == old(command.commandType)
        invariant command.disposed == old(command.disposed)
    {
      AddInputObject(command, ps[i].0, ps[i].1);
      assert ObjectParams(ps[..i + 1]) == ObjectParams(ps[..i]) + ObjectParams([ps[i]]);
    }
    assert ps[..|ps|] == ps;
  }

  /** Repeating a column name lengthens the column list by two but the
      parameter dictionary by at most one, so the two can differ. */
  method ColumnTwice(b: DataCommandBuilder, name: string, first: Obj, second: Obj)
    requires b.Valid()
    modifies b
    ensures |b.columns| == |old(b.columns)| + 2
    ensures |b.parameters| <= |old(b.parameters)| + 1
    ensures !HasKey(old(b.parameters), name) ==> b.parameters == old(b.parameters) + [(name, first)]
  {
    AddParameterKeepsDictionary(b.parameters, name, first);
    b.Column(name, first);
    b.Column(name, second);
  }

  // ---- SelectCommandBuilder ----

  const DefaultLimit := 100
  const DefaultOffset := 0

  /** The text a select command runs. */
  function SelectSql(table: Option<string>, whereText: string, orderText: string, offset: int, limit: int): (r: string)
    ensures StartsWith(r, "SELECT * FROM " + table.GetOr(""))
    ensures EndsWith(r, "  LIMIT " + IntToString(offset) + ", " + IntToString(limit))
  {
    var head := "SELECT * FROM " + table.GetOr("");
    var tail := "  LIMIT " + IntToString(offset) + ", " + IntToString(limit);
    Framed(head, " " + whereText + " " + orderText, tail);
    head + (" " + whereText + " " + orderText) + tail
  }

  class SelectCommandBuilder {
    const query: DataCommandBuilder
    var limit: int
    var offset: int
    var order: Option<string>

    constructor ()
      ensures fresh(query) && query.table.None? && query.columns == [] && query.parameters == [] && query.where.None?
      ensures limit == DefaultLimit && offset == DefaultOffset && order.None?
    {
      query := new DataCommandBuilder();
      limit := DefaultLimit;
      offset := DefaultOffset;
      order := None;
    }

    /** `OrderString`: empty for a blank order. */
    function OrderString(): (r: string)
      reads this
      ensures StringExtension.IsNullOrWhiteSpace(order) ==> r == ""
      ensures !StringExtension.IsNullOrWhiteSpace(order) ==> r == "ORDER BY " + order.value
    {
      if StringExtension.IsNullOrWhiteSpace(order) then "" else "ORDER BY " + order.value
    }

    method Limit(n: int)
      modifies this
      ensures limit == n && offset == old(offset) && order == old(order)
    {
      limit := n;
    }

    method Offset(n: int)
      modifies this
      ensures offset == n && limit == old(limit) && order == old(order)
    {
      offset := n;
    }

    /** `Paging(page, pageSize)`: page 1 starts at offset 0, and each page
        starts where the one before it ended, in C#'s wrapping `int`
        arithmetic. */
    method Paging(page: int, pageSize: int)
      modifies this
      ensures limit == pageSize && offset == PageOffset(page, pageSize) && order == old(order)
      ensures page == 1 ==> offset == 0
      ensures IsInt32(offset)
      ensures IsInt32(pageSize * (page - 1)) ==> offset == pageSize * (page - 1)
    {
      limit := pageSize;
      offset := Wrap32(pageSize * Wrap32(page - 1));
      Wrap32Product(pageSize, page - 1);
    }

    method OrderBy(o: Option<string>)
      modifies this
      ensures order == o && limit == old(limit) && offset == old(offset)
    {
      order := o;
    }

    /** `Build(context)`: a command of the context's session (created if
        need be) with the select text and no parameters. */
    method Build(context: DataContext) returns (c: DataCommand)
      modifies context
      ensures fresh(c) && c.session == context.session && context.created
      ensures c.commandText == SelectSql(query.table, WhereText(query.where), OrderString(), offset, limit)
      ensures c.commandType == Text && c.parameters == [] && c.callbacks == [] && !c.disposed
    {
      var sql := SelectSql(query.table, WhereText(query.where), OrderString(), offset, limit);
      var session := context.GetSession();
      c := SessionSql(session, sql);
    }
  }

  /** Consecutive pages follow each other without gap or overlap, modulo
      2^32: the next page starts where the previous one ends, wrapped like
      any C# `int` sum. */
  lemma PagesAreContiguous(page: int, pageSize: int)
    ensures PageOffset(page + 1, pageSize) == Wrap32(PageOffset(page, pageSize) + pageSize)
  {
    var a := pageSize * (page - 1);
    assert pageSize * page == a + pageSize;
    Wrap32Shift(a + pageSize, (a + 0x8000_0000) / Int32Modulus);
  }

  /** Past the `int` range the offset wraps: the third page of
      `int.MaxValue` rows starts at -2. */
  lemma PagingWrapsNegative()
    ensures PageOffset(3, 0x7FFF_FFFF) == -2
  {
  }

  /** The first row of a page: `pageSize * (page - 1)` in wrapping 32-bit
      arithmetic, no bound checked. */
  function PageOffset(page: int, pageSize: int): int {
    Wrap32(pageSize * (page - 1))
  }

  const Int32Modulus := 0x1_0000_0000

  predicate IsInt32(x: int) { -0x8000_0000 <= x < 0x8000_0000 }

  /** A C# `int` result: the mathematical value reduced into the `int` range
      modulo 2^32. */
  function Wrap32(x: int): (r: int)
    ensures IsInt32(r)
    ensures IsInt32(x) ==> r == x
  {
    x - Int32Modulus * ((x + 0x8000_0000) / Int32Modulus)
  }

  /** Adding whole multiples of 2^32 does not change the wrapped value. */
  lemma Wrap32Shift(x: int, k: int)
    ensures Wrap32(x - k * Int32Modulus) == Wrap32(x)
  {
    assert (x - k * Int32Modulus + 0x8000_0000) / Int32Modulus == (x + 0x8000_0000) / Int32Modulus - k;
  }

  /** Wrapping a factor first wraps the product the same way. */
  lemma Wrap32Product(a: int, b: int)
    ensures Wrap32(a * Wrap32(b)) == Wrap32(a * b)
  {
    var q := (b + 0x8000_0000) / Int32Modulus;
    assert a * Wrap32(b) == a * b - (a * q) * Int32Modulus;
    Wrap32Shift(a * b, a * q);
  }

  // ---- InsertCommandBuilder ----

  function AtName(k: string): Option<string> {
    Some(StringExtension.EnsureStartsWith(k, '@'))
  }

  /** The values list: the parameter names, each made to start with `@`. */
  function InsertValues(keys: seq<string>): string {
    JoinNotEmpty(ConvertArray(Some(keys), AtName), ", ")
  }

  function InsertSql(table: Option<string>, columns: seq<string>, keys: seq<string>): string {
    "INSERT INTO " + table.GetOr("") + " ( " + JoinNotEmpty(columns, ", ") + " ) VALUE ( " + InsertValues(keys)
      + "  ); SELECT LAST_INSERT_ID();"
  }

  function AtNames(keys: seq<string>): (r: seq<string>)
    ensures |r| == |keys| && forall i :: 0 <= i < |keys| ==> r[i] == StringExtension.EnsureStartsWith(keys[i], '@')
  {
    seq(|keys|, i requires 0 <= i < |keys| => StringExtension.EnsureStartsWith(keys[i], '@'))
  }

  lemma AtNamesNotBlank(keys: seq<string>)
    ensures forall k :: 0 <= k < |keys| ==> !Blank(AtNames(keys)[k])
  {
    forall k | 0 <= k < |keys|
      ensures !Blank(AtNames(keys)[k])
    {
      var a := AtNames(keys)[k];
      assert StartsWith(a, ['@']);
      assert a[0] == '@';
    }
  }

  /** Every parameter name gives one value, in order: none is blank once it
      starts with `@`, so none is skipped. */
  lemma InsertValuesOnePerKey(keys: seq<string>)
    ensures InsertValues(keys) == Join(", ", AtNames(keys))
  {
    SelectNonNullAll(keys, AtName);
    assert SelectNonNull(keys, AtName) == AtNames(keys);
    AtNamesNotBlank(keys);
    NonBlankNoneBlank(AtNames(keys));
  }

  /** `InsertCommandBuilder.Build(context)`: the insert text, then one
      parameter per dictionary entry. */
  method BuildInsert(b: DataCommandBuilder, context: DataContext) returns (c: DataCommand)
    modifies context
    ensures fresh(c) && c.session == context.session && context.created
    ensures c.commandText == InsertSql(b.table, b.columns, Keys(b.parameters))
    ensures c.parameters == ObjectParams(b.parameters)
    ensures c.commandType == Text && c.callbacks == [] && !c.disposed
  {
    var session := context.GetSession();
    c := CreateCommand(session);
    c.Sql(InsertSql(b.table, b.columns, Keys(b.parameters)));
    AddObjectParams(c, b.parameters);
  }

  // ---- UpdateCommandBuilder ----

  function SetItems(keys: seq<string>): (r: seq<string>)
    ensures |r| == |keys| && forall i :: 0 <= i < |keys| ==> r[i] == keys[i] + " = @" + keys[i]
  {
    seq(|keys|, i requires 0 <= i < |keys| => keys[i] + " = @" + keys[i])
  }

  function UpdateSql(table: Option<string>, keys: seq<string>, whereText: string): string {
    "UPDATE " + table.GetOr("") + " SET " + JoinNotEmpty(SetItems(keys), ",") + "  " + whereText + "  "
  }

  /** The SET clause has one `k = @k` per parameter, in order, joined by commas. */
  lemma UpdateSetOnePerKey(keys: seq<string>)
    ensures JoinNotEmpty(SetItems(keys), ",") == Join(",", SetItems(keys))
  {
    var items := SetItems(keys);
    forall k | 0 <= k < |items|
      ensures !Blank(items[k])
    {
      assert items[k][|keys[k]| + 1] == '=';
    }
    NonBlankNoneBlank(items);
  }

  /** `UpdateCommandBuilder.Build(context)`: the where parameters come first,
      then one parameter per dictionary entry; without a where-builder the
      build fails before the text is set. */
  method BuildUpdate(b: DataCommandBuilder, context: DataContext) returns (r: Result<DataCommand, Exn>)
    modifies context
    ensures context.created
    ensures b.where.None? <==> r.Failure?
    ensures r.Failure? ==> r.error == Raise(NullReference, NullReferenceMessage)
    ensures r.Success? ==>
      fresh(r.value) && r.value.session == context.session &&
      r.value.commandText == UpdateSql(b.table, Keys(b.parameters), WhereText(b.where)) &&
      r.value.parameters == WhereParams(b.where.value.queryConditions) + ObjectParams(b.parameters) &&
      r.value.commandType == Text && r.value.callbacks == [] && !r.value.disposed
  {
    var sql := UpdateSql(b.table, Keys(b.parameters), WhereText(b.where));
    var session := context.GetSession();
    var c := CreateCommand(session);
    ghost var whereParams := if b.where.Some? then WhereParams(b.where.value.queryConditions) else [];
    var added := b.AddWhereParams(c);
    if added.Failure? {
      return Failure(added.error);
    }
    assert c.parameters == whereParams;
    c.Sql(sql);
    AddObjectParams(c, b.parameters);
    r := Success(c);
  }
}
