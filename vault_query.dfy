/** `DataVaultQuery<TEntity>`: the filter texts and small JSON objects the
    repositories send with their stored-procedure calls.  The entity type is
    given by its `TypeInfo`; table and column names come from `EntityHelper`.
    Ids and keys are spliced into the text as they are, without escaping. */
module DataVaultQueries {
  import opened Wrappers
  import opened Text
  import opened Json
  import opened EntityHelper
  import opened EnumerableExtension
  import opened StringFormat
  import FlatJson

  const OrSeparator := " OR "

  /** `TABLE.COLUMN=UNHEX('id')` */
  function UnhexTerm(table: string, column: string, id: string): string {
    table + "." + column + "=UNHEX('" + id + "')"
  }

  /** Each term carries its id between a fixed head and the closing `')`. */
  lemma UnhexTermCarriesId(table: string, column: string, id: string)
    ensures var t := UnhexTerm(table, column, id);
      var head := table + "." + column + "=UNHEX('";
      |t| == |head| + |id| + 2 && t[..|head|] == head && t[|head|..|t| - 2] == id && t[|t| - 2..] == "')"
  {
    var head := table + "." + column + "=UNHEX('";
    var t := UnhexTerm(table, column, id);
    assert t == head + id + "')";
    assert t[..|head|] == head;
    assert t[|head|..|t| - 2] == id;
  }

  /** No term is blank: it holds `=` after the column. */
  lemma UnhexTermNotBlank(table: string, column: string, id: string)
    ensures !Blank(UnhexTerm(table, column, id))
  {
    var t := UnhexTerm(table, column, id);
    assert t[|table| + 1 + |column|] == '=';
  }

  /** The `ContainPKs` terms: one per id, in order. */
  function PKTerms(t: TypeInfo, ids: seq<string>): (r: seq<string>)
    ensures |r| == |ids|
    ensures forall i :: 0 <= i < |ids| ==> r[i] == UnhexTerm(GetDbTableName(t), GetPKColumnName(t), ids[i])
  {
    seq(|ids|, i requires 0 <= i < |ids| => UnhexTerm(GetDbTableName(t), GetPKColumnName(t), ids[i]))
  }

  /** `ContainPKs(values)` */
  function ContainPKs(t: TypeInfo, ids: seq<string>): string {
    JoinNotEmpty(PKTerms(t, ids), OrSeparator)
  }

  /** No term is skipped: the filter is every id's term joined by ` OR `;
      no id gives the empty filter and one id gives its term alone. */
  lemma ContainPKsOnePerId(t: TypeInfo, ids: seq<string>)
    ensures ContainPKs(t, ids) == Join(OrSeparator, PKTerms(t, ids))
    ensures ids == [] ==> ContainPKs(t, ids) == ""
    ensures |ids| == 1 ==> ContainPKs(t, ids) == UnhexTerm(GetDbTableName(t), GetPKColumnName(t), ids[0])
  {
    var terms := PKTerms(t, ids);
    forall k | 0 <= k < |terms|
      ensures !Blank(terms[k])
    {
      UnhexTermNotBlank(GetDbTableName(t), GetPKColumnName(t), ids[k]);
    }
    NonBlankNoneBlank(terms);
  }

  /** `COLUMN='value'` */
  function Comparison(col: string, value: string): (r: string)
    ensures !Blank(r)
  {
    var r := col + "='" + value + "'";
    assert r[|col|] == '=';
    r
  }

  /** The qualified BK column, `TABLE.BK_COLUMN`. */
  function BKColumnRef(t: TypeInfo): string {
    GetDbTableName(t) + "." + GetBKColumnName(t)
  }

  function BKTerms(t: TypeInfo, bks: seq<string>): (r: seq<string>)
    ensures |r| == |bks| && forall i :: 0 <= i < |bks| ==> r[i] == Comparison(BKColumnRef(t), bks[i])
  {
    seq(|bks|, i requires 0 <= i < |bks| => Comparison(BKColumnRef(t), bks[i]))
  }

  /** `ContainBKs(values)` */
  function ContainBKs(t: TypeInfo, bks: seq<string>): string {
    JoinNotEmpty(BKTerms(t, bks), OrSeparator)
  }

  /** Every key gives one term, joined by ` OR `, none skipped. */
  lemma ContainBKsOnePerKey(t: TypeInfo, bks: seq<string>)
    ensures ContainBKs(t, bks) == Join(OrSeparator, BKTerms(t, bks))
    ensures bks == [] ==> ContainBKs(t, bks) == ""
  {
    NonBlankNoneBlank(BKTerms(t, bks));
  }

  /** A value that closes the quote, adds ` OR ` and reopens a comparison
      on the same column reads as two comparisons. */
  lemma QuoteSplice(col: string, a: string, b: string)
    ensures Comparison(col, a + "' OR " + col + "='" + b) == Join(OrSeparator, [Comparison(col, a), Comparison(col, b)])
  {
    var terms := [Comparison(col, a), Comparison(col, b)];
    assert Join(OrSeparator, terms) == terms[0] + OrSeparator + Join(OrSeparator, terms[1..]);
    assert terms[1..] == [Comparison(col, b)];
  }

  /** The keys are not escaped: a single key holding a quote can produce
      exactly the filter of two keys. */
  lemma ContainBKsUnescaped(t: TypeInfo, a: string, b: string)
    ensures ContainBKs(t, [a + "' OR " + BKColumnRef(t) + "='" + b]) == ContainBKs(t, [a, b])
  {
    var col := BKColumnRef(t);
    var k := a + "' OR " + col + "='" + b;
    QuoteSplice(col, a, b);
    ContainBKsOnePerKey(t, [k]);
    ContainBKsOnePerKey(t, [a, b]);
    assert BKTerms(t, [a, b]) == [Comparison(col, a), Comparison(col, b)];
    assert BKTerms(t, [k]) == [Comparison(col, k)];
  }

  /** `EqualsPK(value)`: one property, under the PK column. */
  function EqualsPK(t: TypeInfo, value: string): (r: Json)
    ensures r.JObj? && |r.props| == 1 && FlatJson.Lookup(r.props, GetPKColumnName(t)) == Some(JStr(value))
  {
    JObj([(GetPKColumnName(t), JStr(value))])
  }

  /** `EqualsBK(value)`: one property, under the BK column. */
  function EqualsBK(t: TypeInfo, value: string): (r: Json)
    ensures r.JObj? && |r.props| == 1 && FlatJson.Lookup(r.props, GetBKColumnName(t)) == Some(JStr(value))
  {
    JObj([(GetBKColumnName(t), JStr(value))])
  }

  /** `LinkObject<TLinkToHub>(entityId, linkToEntityId)`: the owner's PK
      column, then the other type's PK column, each set through the indexer,
      so the second write wins when the two columns coincide. */
  function LinkObject(t: TypeInfo, other: TypeInfo, entityId: string, linkToEntityId: string): (r: Json)
    ensures r.JObj?
    ensures FlatJson.Lookup(r.props, GetPKColumnName(other)) == Some(JStr(linkToEntityId))
    ensures GetPKColumnName(t) != GetPKColumnName(other) ==>
      |r.props| == 2 && FlatJson.Lookup(r.props, GetPKColumnName(t)) == Some(JStr(entityId))
    ensures GetPKColumnName(t) == GetPKColumnName(other) ==> r.props == [(GetPKColumnName(t), JStr(linkToEntityId))]
  {
    var first := FlatJson.SetProp([], GetPKColumnName(t), JStr(entityId));
    JObj(FlatJson.SetProp(first, GetPKColumnName(other), JStr(linkToEntityId)))
  }

  /** `FilterPK(id)`: a one-element array, the id quoted but not unhexed. */
  function FilterPK(t: TypeInfo, id: string): (r: Json)
    ensures r == JArr([JStr(GetDbTableName(t) + "." + GetPKColumnName(t) + "='" + id + "'")])
  {
    JArr([JStr(GetDbTableName(t) + "." + GetPKColumnName(t) + "='" + id + "'")])
  }

  /** The `select` entry: every column, or none. */
  function Select(includeDetails: bool): (r: Json)
    ensures includeDetails <==> r == JArr([JStr("*")])
    ensures !includeDetails <==> r == JArr([])
  {
    if includeDetails then JArr([JStr("*")]) else JArr([])
  }

  /** One group of `FilterLinksWithPKs`: the link table's column for the
      other type, one term per id, joined by ` OR ` and parenthesised. */
  function LinkGroup(t: TypeInfo, other: TypeInfo, ids: seq<string>): (r: string)
    ensures |r| >= 2 && r[0] == '(' && r[|r| - 1] == ')'
  {
    WrapCurlyBracket(Join(OrSeparator, LinkTerms(t, other, ids)))
  }

  /** The terms of one group: one per id, on the link table's column for the other type. */
  function LinkTerms(t: TypeInfo, other: TypeInfo, ids: seq<string>): (r: seq<string>)
    ensures |r| == |ids|
    ensures forall i :: 0 <= i < |ids| ==> r[i] == UnhexTerm(GetDbTableName(t), GetPKColumnName(other), ids[i])
  {
    seq(|ids|, i requires 0 <= i < |ids| => UnhexTerm(GetDbTableName(t), GetPKColumnName(other), ids[i]))
  }

  /** A group joins its terms as `JoinNotEmpty` does: no term is blank, so none is dropped. */
  lemma LinkGroupJoinsNotEmpty(t: TypeInfo, other: TypeInfo, ids: seq<string>)
    ensures LinkGroup(t, other, ids) == WrapCurlyBracket(JoinNotEmpty(LinkTerms(t, other, ids), OrSeparator))
  {
    var terms := LinkTerms(t, other, ids);
    forall k | 0 <= k < |terms|
      ensures !Blank(terms[k])
    {
      UnhexTermNotBlank(GetDbTableName(t), GetPKColumnName(other), ids[k]);
    }
    NonBlankNoneBlank(terms);
  }

  /** The groups, in dictionary order, skipping types with no ids. */
  function LinkGroups(t: TypeInfo, entries: seq<(TypeInfo, Option<seq<string>>)>): (r: seq<string>)
    ensures |r| <= |entries|
    decreases |entries|
  {
    if entries == [] then []
    else
      var last := entries[|entries| - 1];
      LinkGroups(t, entries[..|entries| - 1]) + (if EnumerableExtension.IsNullOrEmpty(last.1) then [] else [LinkGroup(t, last.0, last.1.value)])
  }

  /** Types whose id array is null or empty add no group. */
  lemma {:induction false} LinkGroupsOfEmpty(t: TypeInfo, entries: seq<(TypeInfo, Option<seq<string>>)>)
    requires forall i :: 0 <= i < |entries| ==> EnumerableExtension.IsNullOrEmpty(entries[i].1)
    ensures LinkGroups(t, entries) == []
    decreases |entries|
  {
    if entries != [] {
      LinkGroupsOfEmpty(t, entries[..|entries| - 1]);
    }
  }

  /** Every group is parenthesised. */
  lemma {:induction false} LinkGroupsBracketed(t: TypeInfo, entries: seq<(TypeInfo, Option<seq<string>>)>)
    ensures forall g :: g in LinkGroups(t, entries) ==> |g| >= 2 && g[0] == '(' && g[|g| - 1] == ')'
    decreases |entries|
  {
    if entries != [] {
      var n := |entries| - 1;
      LinkGroupsBracketed(t, entries[..n]);
      var last := entries[n];
      var extra := if EnumerableExtension.IsNullOrEmpty(last.1) then [] else [LinkGroup(t, last.0, last.1.value)];
      assert LinkGroups(t, entries) == LinkGroups(t, entries[..n]) + extra;
    }
  }

  /** With every id array non-empty there is exactly one group per type. */
  lemma {:induction false} LinkGroupsOnePerType(t: TypeInfo, entries: seq<(TypeInfo, Option<seq<string>>)>)
    requires forall i :: 0 <= i < |entries| ==> entries[i].1.Some? && entries[i].1.value != []
    ensures |LinkGroups(t, entries)| == |entries|
    ensures forall i :: 0 <= i < |entries| ==> LinkGroups(t, entries)[i] == LinkGroup(t, entries[i].0, entries[i].1.value)
    decreases |entries|
  {
    if entries != [] {
      var init := entries[..|entries| - 1];
      var last := entries[|entries| - 1];
      LinkGroupsOnePerType(t, init);
      LinkGroupsOnePerTypeStep(t, entries);
    }
  }

  /** The step of `LinkGroupsOnePerType`: the last type adds its group at the end. */
  lemma {:induction false} LinkGroupsOnePerTypeStep(t: TypeInfo, entries: seq<(TypeInfo, Option<seq<string>>)>)
    requires entries != []
    requires forall i :: 0 <= i < |entries| ==> entries[i].1.Some? && entries[i].1.value != []
    requires |LinkGroups(t, entries[..|entries| - 1])| == |entries| - 1
    requires forall i :: 0 <= i < |entries| - 1 ==> LinkGroups(t, entries[..|entries| - 1])[i] == LinkGroup(t, entries[i].0, entries[i].1.value)
    ensures |LinkGroups(t, entries)| == |entries|
    ensures forall i :: 0 <= i < |entries| ==> LinkGroups(t, entries)[i] == LinkGroup(t, entries[i].0, entries[i].1.value)
  {
    var n := |entries| - 1;
    var last := entries[n];
    assert !EnumerableExtension.IsNullOrEmpty(last.1);
    AppendAt(LinkGroups(t, entries[..n]), LinkGroup(t, last.0, last.1.value));
  }

  /** Appending keeps every earlier element in place. */
  lemma AppendAt<T>(s: seq<T>, x: T)
    ensures |s + [x]| == |s| + 1 && (s + [x])[|s|] == x
    ensures forall i :: 0 <= i < |s| ==> (s + [x])[i] == s[i]
  {
  }

  /** `FilterLinksWithPKs(entityTypeWithIds, includeDetails)` */
  function FilterLinksWithPKs(t: TypeInfo, entries: seq<(TypeInfo, Option<seq<string>>)>, includeDetails: bool): (r: Json)
    ensures r.JObj? && |r.props| == 2
    ensures r.props[0] == ("filter", JArr(JStrs(LinkGroups(t, entries))))
    ensures r.props[1] == ("select", Select(includeDetails))
  {
    JObj([("filter", JArr(JStrs(LinkGroups(t, entries)))), ("select", Select(includeDetails))])
  }


  /** `RelatedHub<TRelatedHub>(ids, includeDetails)`: the hub's entity name
      (no `HUB_` prefix) and PK column, each id compared unquoted. */
  function RelatedHub(hub: TypeInfo, ids: seq<string>, includeDetails: bool): (r: Json)
    ensures r.JObj? && |r.props| == 2 && r.props[1] == ("select", Select(includeDetails))
    ensures r.props[0].0 == "filterPK" && r.props[0].1.JStr?
    ensures ids == [] ==> r.props[0].1 == JStr("")
  {
    var terms := seq(|ids|, i requires 0 <= i < |ids| => GetDbEntityName(hub) + "." + GetPKColumnName(hub) + "=" + ids[i]);
    JObj([("filterPK", JStr(JoinNotEmpty(terms, OrSeparator))), ("select", Select(includeDetails))])
  }
}
