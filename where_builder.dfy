/** `WhereBuilder`: the AND chain behind the text command builders.  Its
    conditions carry only a field name, no table name. */
module QueryWhere {
  import W = Wrappers
  import opened Values
  import opened SqlExpression
  import opened QueryPredicates
  import opened Text

  /** `BuildQueryCondition(field, op, value)`: no table name. */
  function WhereCondition(field: string, op: QueryOperator, value: Obj)
    : (r: W.Result<QueryCondition, QueryValueError>)
    ensures r.Failure? <==> value.ONull?
    ensures r.Success? ==>
      r.value.field == QueryField(W.None, W.Some(field)) && r.value.op == op && r.value.value.value == value
  {
    var v :- NewQueryValue(value);
    W.Success(QueryCondition(QueryField(W.None, W.Some(field)), op, v))
  }

  /** Without a table name a condition's field renders as `` `field` ``. */
  lemma WhereFieldUnqualified(field: string, op: QueryOperator, value: Obj)
    requires !value.ONull?
    ensures BuildField(WhereCondition(field, op, value).value.field) == "`" + field + "`"
  {
  }

  class WhereBuilder {
    var queryConditions: seq<Entry>

    constructor (conditions: seq<Entry>)
      ensures queryConditions == conditions
    {
      queryConditions := conditions;
    }

    /** `New`: one condition with logic `None`. */
    static method New(field: string, op: QueryOperator, value: Obj) returns (r: W.Result<WhereBuilder, QueryValueError>)
      ensures r.Failure? <==> value.ONull?
      ensures r.Success? ==> (fresh(r.value)
        && r.value.queryConditions == [(WhereCondition(field, op, value).value, QueryLogicOperator.None)])
    {
      var c := WhereCondition(field, op, value);
      if c.Failure? {
        return W.Failure(c.error);
      }
      var b := new WhereBuilder([(c.value, QueryLogicOperator.None)]);
      return W.Success(b);
    }

    /** `And`: one `And` condition at the end. */
    method And(field: string, op: QueryOperator, value: Obj) returns (r: W.Result<WhereBuilder, QueryValueError>)
      modifies this
      ensures r.Failure? <==> value.ONull?
      ensures r.Failure? ==> queryConditions == old(queryConditions)
      ensures r.Success? ==> (r.value == this
        && queryConditions == old(queryConditions) + [(WhereCondition(field, op, value).value, QueryLogicOperator.And)])
    {
      var c := WhereCondition(field, op, value);
      if c.Failure? {
        return W.Failure(c.error);
      }
      queryConditions := queryConditions + [(c.value, QueryLogicOperator.And)];
      return W.Success(this);
    }

    /** `Or` is private in the source: no caller outside this class uses it,
        and nothing in this model calls it. */
    method Or(field: string, op: QueryOperator, value: Obj) returns (r: W.Result<WhereBuilder, QueryValueError>)
      modifies this
      ensures r.Failure? <==> value.ONull?
      ensures r.Failure? ==> queryConditions == old(queryConditions)
      ensures r.Success? ==> (r.value == this
        && queryConditions == old(queryConditions) + [(WhereCondition(field, op, value).value, QueryLogicOperator.Or)])
    {
      var c := WhereCondition(field, op, value);
      if c.Failure? {
        return W.Failure(c.error);
      }
      queryConditions := queryConditions + [(c.value, QueryLogicOperator.Or)];
      return W.Success(this);
    }

    /** `Build`: the same flat format as `PredicateBuilder.Build`. */
    function Build(): (r: string)
      reads this
      ensures r == Concat(RenderEntries(queryConditions))
    {
      BuildChainIsConcat(queryConditions);
      BuildChain(queryConditions)
    }
  }

  /** Through the public surface (`New`, then `And`) a chain's logic is
      `None` first and `And` after. */
  ghost predicate AndChain(entries: seq<Entry>) {
    |entries| >= 1 && entries[0].1 == QueryLogicOperator.None
    && forall i :: 1 <= i < |entries| ==> entries[i].1 == QueryLogicOperator.And
  }

  lemma AndKeepsAndChain(entries: seq<Entry>, c: QueryCondition)
    requires AndChain(entries)
    ensures AndChain(entries + [(c, QueryLogicOperator.And)])
  {
    var es := entries + [(c, QueryLogicOperator.And)];
    assert forall i :: 1 <= i < |entries| ==> es[i] == entries[i];
  }
}
