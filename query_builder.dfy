/** `DataVaultQueryBuilder`: the view query a `ReadView` call sends.  Filters
    are predicate builders kept in call order, sort strings name a column of
    the entity's table and a direction, and the row window is a count and a
    starting row.  `BuildViewQuery` gives the JSON object that is sent. */
module DataVaultQueryBuilders {
  import opened Wrappers
  import opened Text
  import opened Json
  import opened EnumerableExtension
  import opened StringFormat
  import QP = QueryPredicates
  import FlatJson

  const DefaultRowCount := 100
  const DefaultRowNumber := 0

  /** `SortDirection` */
  datatype SortDirection = Asc | Desc

  /** `direction.ToString().ToUpper()` */
  function DirectionName(d: SortDirection): (r: string)
    ensures r == (if d.Asc? then "ASC" else "DESC")
  {
    match d
    case Asc => "ASC"
    case Desc => "DESC"
  }

  /** The quoted column of a sort: the table is the upper-cased underscore
      form of the type name, the field the JSON property name (null reads as
      empty in the interpolation). */
  function SortColumn(typeName: string, fieldName: Option<string>): string {
    Upper(ToUnderscoreCase(typeName)) + "." + fieldName.GetOr("")
  }

  /** One sort string: `` `TABLE.field` ASC `` or `` `TABLE.field` DESC ``. */
  function SortString(typeName: string, fieldName: Option<string>, d: SortDirection): string {
    "`" + SortColumn(typeName, fieldName) + "` " + DirectionName(d)
  }

  /** A sort string can be taken apart again: the column sits between the
      back-quotes and the direction follows the closing one and a space. */
  lemma SortStringParts(typeName: string, fieldName: Option<string>, d: SortDirection)
    ensures var r := SortString(typeName, fieldName, d);
      var col := SortColumn(typeName, fieldName);
      |r| == |col| + 3 + |DirectionName(d)| && r[0] == '`' &&
      r[1..|col| + 1] == col && r[|col| + 1..|col| + 3] == "` " && r[|col| + 3..] == DirectionName(d)
  {
    var col := SortColumn(typeName, fieldName);
    var r := SortString(typeName, fieldName, d);
    assert r == "`" + col + "` " + DirectionName(d);
    assert r[1..|col| + 1] == col;
    assert r[|col| + 3..] == DirectionName(d);
  }

  /** A sort string names one column and one direction: equal sort strings
      have the same direction and the same column. */
  lemma SortStringInjective(t1: string, f1: Option<string>, d1: SortDirection,
                            t2: string, f2: Option<string>, d2: SortDirection)
    requires SortString(t1, f1, d1) == SortString(t2, f2, d2)
    ensures d1 == d2
    ensures SortColumn(t1, f1) == SortColumn(t2, f2)
  {
    var r := SortString(t1, f1, d1);
    var c1 := SortColumn(t1, f1);
    var c2 := SortColumn(t2, f2);
    SortStringParts(t1, f1, d1);
    SortStringParts(t2, f2, d2);
    DirectionLetter(c1, d1);
    DirectionLetter(c2, d2);
    assert d1 == d2;
    assert c1 == r[1..|c1| + 1] == c2;
  }

  /** The third character from the end of a sort string tells the direction:
      the first letter of "ASC", the second of "DESC". */
  lemma DirectionLetter(col: string, d: SortDirection)
    ensures var r := "`" + col + "` " + DirectionName(d);
      |r| >= 3 && r[|r| - 3] == (if d.Asc? then 'A' else 'E')
  {
    var r := "`" + col + "` " + DirectionName(d);
    assert r[|col| + 3..] == DirectionName(d);
  }

  /** The predicate texts of the filters, in order. */
  function BuildsOf(filters: seq<QP.PredicateBuilder>): (r: seq<string>)
    reads filters
    ensures |r| == |filters| && forall i :: 0 <= i < |filters| ==> r[i] == filters[i].Build()
  {
    seq(|filters|, i requires 0 <= i < |filters| reads filters => filters[i].Build())
  }

  /** The one `filter` entry: every predicate text, blanks skipped, joined by `, `. */
  function ViewFilter(builds: seq<string>): string {
    JoinNotEmpty(builds, ", ")
  }

  /** A filter added last shows up last: a blank one changes nothing, the
      first non-blank one is the whole filter, any later one follows `, `. */
  lemma ViewFilterAppend(builds: seq<string>, b: string)
    ensures ViewFilter(builds + [b]) ==
      if Blank(b) then ViewFilter(builds)
      else if NonBlank(builds) == [] then b
      else ViewFilter(builds) + ", " + b
  {
    JoinNotEmptyAppend(builds, b, ", ");
  }


  /** The four properties of a view query are found under their names. */
  lemma ViewQueryLookups(ps: FlatJson.Props)
    requires |ps| == 4 && ps[0].0 == "filter" && ps[1].0 == "order" && ps[2].0 == "row_number" && ps[3].0 == "row_count"
    ensures FlatJson.Lookup(ps, "filter") == Some(ps[0].1)
    ensures FlatJson.Lookup(ps, "order") == Some(ps[1].1)
    ensures FlatJson.Lookup(ps, "row_number") == Some(ps[2].1)
    ensures FlatJson.Lookup(ps, "row_count") == Some(ps[3].1)
  {
    assert "order"[0] != "filter"[0];
    assert "row_number"[0] != "filter"[0] && "row_number"[0] != "order"[0];
    assert "row_count"[0] != "filter"[0] && "row_count"[0] != "order"[0] && "row_count"[4] != "row_number"[4];
    var t1 := ps[1..];
    var t2 := t1[1..];
    var t3 := t2[1..];
    assert t2[0] == ps[2] && t3[0] == ps[3];
    assert FlatJson.Lookup(ps, "row_number") == FlatJson.Lookup(t1, "row_number") == FlatJson.Lookup(t2, "row_number");
    assert FlatJson.Lookup(ps, "row_count") == FlatJson.Lookup(t1, "row_count") == FlatJson.Lookup(t2, "row_count")
      == FlatJson.Lookup(t3, "row_count");
  }

  /** The view query object: `filter`, `order`, `row_number` and `row_count`, in that order. */
  function ViewQuery(filter: string, sorts: seq<string>, rowNumber: int, rowCount: int): (r: Json)
    ensures r.JObj? && |r.props| == 4
    ensures FlatJson.Lookup(r.props, "filter") == Some(JArr([JStr(filter)]))
    ensures FlatJson.Lookup(r.props, "order").Some?
    ensures var o := FlatJson.Lookup(r.props, "order").value;
      o.JArr? && |o.items| == |sorts| && forall i :: 0 <= i < |sorts| ==> o.items[i] == JStr(sorts[i])
    ensures FlatJson.Lookup(r.props, "row_number") == Some(JNum(rowNumber))
    ensures FlatJson.Lookup(r.props, "row_count") == Some(JNum(rowCount))
  {
    var ps := [("filter", JArr([JStr(filter)])),
               ("order", JArr(JStrs(sorts))),
               ("row_number", JNum(rowNumber)),
               ("row_count", JNum(rowCount))];
    ViewQueryLookups(ps);
    JObj(ps)
  }

  class DataVaultQueryBuilder {
    var filterQueries: seq<QP.PredicateBuilder>
    var sortQueries: seq<string>
    var rowCount: int
    var rowNumber: int

    /** `New()`: no filters, no sorts, the first 100 rows. */
    constructor ()
      ensures filterQueries == [] && sortQueries == []
      ensures rowCount == DefaultRowCount && rowNumber == DefaultRowNumber
    {
      filterQueries := [];
      sortQueries := [];
      rowCount := DefaultRowCount;
      rowNumber := DefaultRowNumber;
    }

    /** `Filter(filter)`: appended after the earlier filters. */
    method Filter(filter: QP.PredicateBuilder) returns (r: DataVaultQueryBuilder)
      modifies this
      ensures r == this && filterQueries == old(filterQueries) + [filter]
      ensures sortQueries == old(sortQueries) && rowCount == old(rowCount) && rowNumber == old(rowNumber)
    {
      filterQueries := filterQueries + [filter];
      r := this;
    }

    method SetRowCount(n: int) returns (r: DataVaultQueryBuilder)
      modifies this
      ensures r == this && rowCount == n
      ensures filterQueries == old(filterQueries) && sortQueries == old(sortQueries) && rowNumber == old(rowNumber)
    {
      rowCount := n;
      r := this;
    }

    method SetRowNumber(n: int) returns (r: DataVaultQueryBuilder)
      modifies this
      ensures r == this && rowNumber == n
      ensures filterQueries == old(filterQueries) && sortQueries == old(sortQueries) && rowCount == old(rowCount)
    {
      rowNumber := n;
      r := this;
    }

    /** `SortAscending<T>(field)`: appended after the earlier sorts. */
    method SortAscending(typeName: string, fieldName: Option<string>) returns (r: DataVaultQueryBuilder)
      modifies this
      ensures r == this && sortQueries == old(sortQueries) + [SortString(typeName, fieldName, Asc)]
      ensures filterQueries == old(filterQueries) && rowCount == old(rowCount) && rowNumber == old(rowNumber)
    {
      sortQueries := sortQueries + [SortString(typeName, fieldName, Asc)];
      r := this;
    }

    /** `SortDescending<T>(field)`: appended after the earlier sorts. */
    method SortDescending(typeName: string, fieldName: Option<string>) returns (r: DataVaultQueryBuilder)
      modifies this
      ensures r == this && sortQueries == old(sortQueries) + [SortString(typeName, fieldName, Desc)]
      ensures filterQueries == old(filterQueries) && rowCount == old(rowCount) && rowNumber == old(rowNumber)
    {
      sortQueries := sortQueries + [SortString(typeName, fieldName, Desc)];
      r := this;
    }

    /** `BuildViewQuery()`: `filter` is a one-element array holding the joined
        predicate texts, `order` the sort strings in call order, and the row
        window the current fields. */
    function BuildViewQuery(): (r: Json)
      reads this, filterQueries
      ensures r.JObj? && |r.props| == 4
      ensures FlatJson.Lookup(r.props, "filter") == Some(JArr([JStr(ViewFilter(BuildsOf(filterQueries)))]))
      ensures FlatJson.Lookup(r.props, "order").Some?
      ensures var o := FlatJson.Lookup(r.props, "order").value;
        o.JArr? && |o.items| == |sortQueries| && forall i :: 0 <= i < |sortQueries| ==> o.items[i] == JStr(sortQueries[i])
      ensures FlatJson.Lookup(r.props, "row_number") == Some(JNum(rowNumber))
      ensures FlatJson.Lookup(r.props, "row_count") == Some(JNum(rowCount))
    {
      ViewQuery(ViewFilter(BuildsOf(filterQueries)), sortQueries, rowNumber, rowCount)
    }
  }
}
