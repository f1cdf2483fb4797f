/** `LinkRepository<TDvLinkEntity>`: the links of one link type, read by
    id, created, updated and removed through the data-vault context.  The
    operations every repository has are those of the shared repository
    `base`, on the same context and link type.

    Turning an entity into the JSON the context sends is `serialize`. */
module LinkRepositories {
  import opened Wrappers
  import opened Exceptions
  import opened Json
  import opened EntityHelper
  import opened EntityExtensions
  import opened DataVaultQueries
  import opened DataVaultContexts
  import opened DataVaultRepositories
  import HubRepositories
  import FlatJson

  /** The query `Find(id, includeDetails)` sends: `filterPK` and `select`; a
      null id is interpolated as empty text. */
  function FindQuery(t: TypeInfo, id: Option<string>, includeDetails: bool): (r: Json)
    ensures r.JObj? && |r.props| == 2
    ensures FlatJson.Lookup(r.props, "filterPK") == Some(FilterPK(t, id.GetOr("")))
    ensures FlatJson.Lookup(r.props, "select") == Some(SatSelection(includeDetails))
  {
    var ps := [("filterPK", FilterPK(t, id.GetOr(""))), ("select", SatSelection(includeDetails))];
    assert ps[1..][0] == ps[1];
    JObj(ps)
  }

  /** The link ids asked for are told apart by the query: different ids give
      different queries. */
  lemma FindQueryInjective(t: TypeInfo, a: string, b: string, includeDetails: bool)
    requires FindQuery(t, Some(a), includeDetails) == FindQuery(t, Some(b), includeDetails)
    ensures a == b
  {
    var pre := GetDbTableName(t) + "." + GetPKColumnName(t) + "='";
    var ta := pre + a + "'";
    var tb := pre + b + "'";
    assert FilterPK(t, a) == FilterPK(t, b);
    assert ta == tb;
    assert ta[|pre|..|ta| - 1] == a;
    assert tb[|pre|..|tb| - 1] == b;
  }

  class LinkRepository {
    const base: DataVaultRepository
    const context: DataVaultContext
    const entity: TypeInfo
    const serialize: Record -> Json

    /** `new LinkRepository<T>(context)`, with its shared-repository part. */
    constructor (context: DataVaultContext, entity: TypeInfo, serialize: Record -> Json)
      ensures this.context == context && this.entity == entity && this.serialize == serialize
      ensures Valid() && fresh(base)
    {
      var b := new DataVaultRepository(context, entity);
      base := b;
      this.context := context;
      this.entity := entity;
      this.serialize := serialize;
    }

    /** The shared part works on the same context and link type. */
    predicate Valid() {
      base.context == context && base.entity == entity
    }

    /** A nullable entity as the JSON the context sends. */
    function Serialized(x: Option<Record>): (r: Option<Json>)
      ensures r.Some? <==> x.Some?
    {
      if x.Some? then Some(serialize(x.value)) else None
    }

    /** The read `Find(id, includeDetails)` makes. */
    function FindCall(id: Option<string>, includeDetails: bool): ProcCall {
      ReadLinksCall(entity, Some(FindQuery(entity, id, includeDetails)))
    }

    /** What that read, made next, gives. */
    function FindRead(id: Option<string>, includeDetails: bool): Result<seq<Option<Record>>, Exn>
      reads context
    {
      OrEmpty(context.Typed(FindCall(id, includeDetails), context.decodeEntities))
    }

    /** `Find(id, includeDetails)`: the first link the query gives, or null. */
    method Find(id: Option<string>, includeDetails: bool) returns (r: Result<Option<Record>, Exn>)
      modifies context
      ensures context.calls == old(context.calls) + [FindCall(id, includeDetails)]
      ensures old(FindRead(id, includeDetails)).Failure? ==> r == Failure(old(FindRead(id, includeDetails)).error)
      ensures old(FindRead(id, includeDetails)).Success? ==> r == Success(FirstOrNull(old(FindRead(id, includeDetails)).value))
    {
      var links := context.ReadLinks(entity, Some(FindQuery(entity, id, includeDetails)));
      if links.Failure? {
        return Failure(links.error);
      }
      r := Success(FirstOrNull(links.value));
    }

    /** `Get(id, includeDetails)`: the link found by `Find`; none found throws. */
    method Get(id: Option<string>, includeDetails: bool) returns (r: Result<Record, Exn>)
      modifies context
      ensures context.calls == old(context.calls) + [FindCall(id, includeDetails)]
      ensures old(FindRead(id, includeDetails)).Failure? ==> r == Failure(old(FindRead(id, includeDetails)).error)
      ensures old(FindRead(id, includeDetails)).Success? ==>
        var first := FirstOrNull(old(FindRead(id, includeDetails)).value);
        (first.None? ==> r == Failure(HubRepositories.NotFound(id.GetOr("")))) &&
        (first.Some? ==> r == Success(first.value))
    {
      var found := Find(id, includeDetails);
      if found.Failure? {
        return Failure(found.error);
      }
      if found.value.None? {
        return Failure(HubRepositories.NotFound(id.GetOr("")));
      }
      r := Success(found.value.value);
    }

    /** `Create(entity)`: the link data (the foreign keys) and the entity are
        sent; the new id is what the procedure answers. */
    method Create(rec: Option<Record>) returns (r: Result<Option<string>, Exn>)
      modifies context
      ensures GetLinkData(rec).Failure? ==> r == Failure(FaultExn(GetLinkData(rec).error)) && context.calls == old(context.calls)
      ensures GetLinkData(rec).Success? ==>
        var call := LinkRecordCall(entity, context.auditInfo, Serialized(GetLinkData(rec).value), Serialized(rec));
        context.calls == old(context.calls) + [call] && r == old(context.Handled(call))
    {
      var data := GetLinkData(rec);
      if data.Failure? {
        return Failure(FaultExn(data.error));
      }
      r := context.LinkRecord(entity, Serialized(data.value), Serialized(rec));
    }

    /** `Update(id, entity)`: the whole entity is sent as satellite data. */
    method Update(id: Option<string>, rec: Option<Record>) returns (r: Option<Exn>)
      modifies context
      ensures context.calls == old(context.calls) + [UpdateLinkCall(entity, context.auditInfo, id, Serialized(rec))]
      ensures r == old(context.Executed(UpdateLinkCall(entity, context.auditInfo, id, Serialized(rec))))
    {
      r := context.UpdateLink(entity, id, Serialized(rec));
    }

    /** `Delete(id)`: the link is removed without being read first. */
    method Delete(id: Option<string>) returns (r: Option<Exn>)
      modifies context
      ensures context.calls == old(context.calls) + [UnLinkRecordCall(entity, context.auditInfo, id)]
      ensures r == old(context.Executed(UnLinkRecordCall(entity, context.auditInfo, id)))
    {
      r := context.UnLinkRecord(entity, id);
    }

    /** `Delete(entity)` of the shared repository: `Delete(id)` with the entity's id. */
    method DeleteEntity(rec: Option<Record>) returns (r: Option<Exn>)
      modifies context
      ensures GetId(rec).Failure? ==> r == Some(FaultExn(GetId(rec).error)) && context.calls == old(context.calls)
      ensures GetId(rec).Success? ==>
        context.calls == old(context.calls) + [UnLinkRecordCall(entity, context.auditInfo, GetId(rec).value)] &&
        r == old(context.Executed(UnLinkRecordCall(entity, context.auditInfo, GetId(rec).value)))
    {
      var id := GetId(rec);
      if id.Failure? {
        return Some(FaultExn(id.error));
      }
      r := Delete(id.value);
    }
  }
}
