/** `PredicateBuilder`: an ordered chain of conditions joined by AND/OR.
    The source keys its dictionary by freshly created condition objects, so
    every `Add` is a new entry and enumeration follows insertion order: the
    chain is a sequence that only grows at its end. */
module QueryPredicates {
  import W = Wrappers
  import opened Text
  import opened Values
  import opened StringFormat
  import opened EnumerableExtension
  import opened SqlExpression

  datatype QueryLogicOperator = None | And | Or

  type Entry = (QueryCondition, QueryLogicOperator)

  /** `x.Value == None ? "" : x.Value.ToString().ToUpper()` */
  function Keyword(l: QueryLogicOperator): string {
    match l
    case None => ""
    case And => "AND"
    case Or => "OR"
  }

  /** One chain element: keyword, a space, the condition, two spaces. */
  function RenderEntry(e: Entry): (r: string)
    ensures !Blank(r)
  {
    var c := BuildCondition(e.0);
    var r := Keyword(e.1) + " " + c + "  ";
    var i :| 0 <= i < |c| && !IsWhiteSpace(c[i]);
    assert r[|Keyword(e.1)| + 1 + i] == c[i];
    r
  }

  function RenderEntries(entries: seq<Entry>): (r: seq<string>)
    ensures |r| == |entries| && forall i :: 0 <= i < |entries| ==> r[i] == RenderEntry(entries[i])
  {
    seq(|entries|, i requires 0 <= i < |entries| => RenderEntry(entries[i]))
  }

  /** The `Build()` of both builders: the rendered elements through `JoinNotEmpty()`. */
  function BuildChain(entries: seq<Entry>): string {
    JoinNotEmptyConcat(RenderEntries(entries))
  }

  /** No element is dropped: the chain is the concatenation of every element,
      in order, with no separator and no parentheses. */
  lemma BuildChainIsConcat(entries: seq<Entry>)
    ensures BuildChain(entries) == Concat(RenderEntries(entries))
  {
    NonBlankNoneBlank(RenderEntries(entries));
  }

  /** Appending a condition appends exactly its rendering. */
  lemma BuildChainAppend(entries: seq<Entry>, e: Entry)
    ensures BuildChain(entries + [e]) == BuildChain(entries) + RenderEntry(e)
  {
    BuildChainIsConcat(entries);
    BuildChainIsConcat(entries + [e]);
    assert RenderEntries(entries + [e]) == RenderEntries(entries) + [RenderEntry(e)];
    ConcatAppend(RenderEntries(entries), RenderEntry(e));
  }

  /** `BuildQueryCondition<T>`: the table is the upper-cased underscore form
      of the type name; the field name (from the JSON property attribute)
      is given; the value is wrapped in a `QueryValue`, which fails on null. */
  function BuildQueryCondition(typeName: string, fieldName: W.Option<string>, op: QueryOperator, value: Obj)
    : (r: W.Result<QueryCondition, QueryValueError>)
    ensures r.Failure? <==> value.ONull?
    ensures r.Success? ==>
      r.value.field == QueryField(W.Some(Upper(ToUnderscoreCase(typeName))), fieldName)
      && r.value.op == op && r.value.value.value == value
  {
    var v :- NewQueryValue(value);
    W.Success(QueryCondition(QueryField(W.Some(Upper(ToUnderscoreCase(typeName))), fieldName), op, v))
  }

  class PredicateBuilder {
    var conditions: seq<Entry>

    constructor (queryConditions: seq<Entry>)
      ensures conditions == queryConditions
    {
      conditions := queryConditions;
    }

    /** `New<T>`: a builder holding the one condition, with logic `None`. */
    static method New(typeName: string, fieldName: W.Option<string>, op: QueryOperator, value: Obj)
      returns (r: W.Result<PredicateBuilder, QueryValueError>)
      ensures r.Failure? <==> value.ONull?
      ensures r.Success? ==> (fresh(r.value)
        && r.value.conditions == [(BuildQueryCondition(typeName, fieldName, op, value).value, None)])
    {
      var c := BuildQueryCondition(typeName, fieldName, op, value);
      if c.Failure? {
        return W.Failure(c.error);
      }
      var b := new PredicateBuilder([(c.value, None)]);
      return W.Success(b);
    }

    /** `And<T>`: one `And` condition after all existing ones. */
    method And(typeName: string, fieldName: W.Option<string>, op: QueryOperator, value: Obj)
      returns (r: W.Result<PredicateBuilder, QueryValueError>)
      modifies this
      ensures r.Failure? <==> value.ONull?
      ensures r.Failure? ==> conditions == old(conditions)
      ensures r.Success? ==> (r.value == this
        && conditions == old(conditions) + [(BuildQueryCondition(typeName, fieldName, op, value).value, QueryLogicOperator.And)])
    {
      var c := BuildQueryCondition(typeName, fieldName, op, value);
      if c.Failure? {
        return W.Failure(c.error);
      }
      conditions := conditions + [(c.value, QueryLogicOperator.And)];
      return W.Success(this);
    }

    /** `Or<T>`: one `Or` condition after all existing ones. */
    method Or(typeName: string, fieldName: W.Option<string>, op: QueryOperator, value: Obj)
      returns (r: W.Result<PredicateBuilder, QueryValueError>)
      modifies this
      ensures r.Failure? <==> value.ONull?
      ensures r.Failure? ==> conditions == old(conditions)
      ensures r.Success? ==> (r.value == this
        && conditions == old(conditions) + [(BuildQueryCondition(typeName, fieldName, op, value).value, QueryLogicOperator.Or)])
    {
      var c := BuildQueryCondition(typeName, fieldName, op, value);
      if c.Failure? {
        return W.Failure(c.error);
      }
      conditions := conditions + [(c.value, QueryLogicOperator.Or)];
      return W.Success(this);
    }

    /** `Build`: every condition rendered and concatenated in order. */
    function Build(): (r: string)
      reads this
      ensures r == Concat(RenderEntries(conditions))
    {
      BuildChainIsConcat(conditions);
      BuildChain(conditions)
    }
  }

  /** A chain built by `New` and then `And`/`Or` calls renders one element per
      call, first the `New` condition with an empty keyword. */
  lemma BuildOfChain(first: QueryCondition, more: seq<Entry>)
    ensures BuildChain([(first, None)] + more)
      == " " + BuildCondition(first) + "  " + Concat(RenderEntries(more))
  {
    var es := [(first, None)] + more;
    BuildChainIsConcat(es);
    var rs := RenderEntries(es);
    assert rs[0] == RenderEntry((first, None)) == " " + BuildCondition(first) + "  ";
    assert rs[1..] == RenderEntries(more) by {
      assert es[1..] == more;
    }
    assert Concat(rs) == rs[0] + Concat(rs[1..]);
  }
}
