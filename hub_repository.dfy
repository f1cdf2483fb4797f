/** `HubRepository<TDvHubEntity>`: the hubs of one entity type, read by id
    or by business key, created, updated and deleted through the data-vault
    context.  The operations every repository has (views and links) are
    those of the shared repository `base`, which works on the same context
    and entity type.

    Turning an entity into the JSON the context sends is `serialize`. */
module HubRepositories {
  import opened Wrappers
  import opened Text
  import opened Exceptions
  import opened Json
  import opened EntityHelper
  import opened EntityExtensions
  import opened DataVaultQueries
  import opened DataVaultContexts
  import opened DataVaultRepositories
  import EnumerableExtension
  import FlatJson

  /** `EntityNotFoundException(type, key)`: the message is the key text. */
  function NotFound(key: string): Exn {
    Raise(EntityNotFound, key)
  }

  /** `new JObject { [column] = value }`: a null string is a JSON null. */
  function ColumnEquals(column: string, value: Option<string>): (r: Json)
    ensures r.JObj? && |r.props| == 1 && FlatJson.Lookup(r.props, column).Some?
    ensures value.Some? ==> FlatJson.Lookup(r.props, column) == Some(JStr(value.value))
    ensures value.None? ==> FlatJson.Lookup(r.props, column) == Some(JNull)
  {
    JObj([(column, if value.Some? then JStr(value.value) else JNull)])
  }

  /** For a non-null key the object is the one `EqualsPK`/`EqualsBK` build. */
  lemma ColumnEqualsKeys(t: TypeInfo, value: string)
    ensures ColumnEquals(GetPKColumnName(t), Some(value)) == EqualsPK(t, value)
    ensures ColumnEquals(GetBKColumnName(t), Some(value)) == EqualsBK(t, value)
  {
  }

  /** The query of hub records by business key: `filter` holds the `ContainBKs` text. */
  function BKsQuery(t: TypeInfo, bks: seq<string>, includeDetails: bool): Json {
    JObj([("filter", JArr([JStr(ContainBKs(t, bks))])), ("select", SatSelection(includeDetails))])
  }

  /** The keys that are not among `found`, in order, repeats kept. */
  function Missing(keys: seq<string>, found: seq<string>): (r: seq<string>)
    ensures forall k :: k in r <==> k in keys && k !in found
  {
    if keys == [] then []
    else
      assert forall k :: k in keys <==> k == keys[0] || k in keys[1..];
      (if keys[0] in found then [] else [keys[0]]) + Missing(keys[1..], found)
  }

  /** LINQ `keys.Except(found)`: every key not found, once, in first-occurrence order. */
  function Except(keys: seq<string>, found: seq<string>): seq<string> {
    Distinct(Missing(keys, found))
  }

  /** `Except` keeps exactly the keys that are not found, each once. */
  lemma ExceptExactly(keys: seq<string>, found: seq<string>)
    ensures forall k :: k in Except(keys, found) <==> k in keys && k !in found
    ensures forall a, b :: 0 <= a < b < |Except(keys, found)| ==> Except(keys, found)[a] != Except(keys, found)[b]
  {
    DistinctExactly(Missing(keys, found));
  }

  /** The check `CheckExist...AndGetList` makes on the entities read: the
      requested keys that are not among the keys read off the entities are
      reported together, joined by `, `; with none missing the entities are
      the answer.  An entity whose key cannot be read throws first. */
  function CheckFound(keys: seq<string>, entities: seq<Option<Record>>, s: KeySelector): Result<seq<Option<Record>>, Exn> {
    var found :- KeysOf(entities, s);
    var notExist := Except(keys, found);
    if notExist != [] then Failure(NotFound(EnumerableExtension.JoinNotEmpty(notExist, ", ")))
    else Success(entities)
  }

  /** The check passes exactly when every requested key is the key of some
      entity read, and then gives the entities unchanged; when the keys can
      be read but one is missing, the failure is an `EntityNotFound`. */
  lemma CheckFoundExactly(keys: seq<string>, entities: seq<Option<Record>>, s: KeySelector)
    ensures CheckFound(keys, entities, s).Success? <==>
      KeysOf(entities, s).Success? &&
      forall k :: k in keys ==> exists i :: 0 <= i < |entities| && SelectKey(s, entities[i]) == Success(Some(k))
    ensures CheckFound(keys, entities, s).Success? ==> CheckFound(keys, entities, s).value == entities
    ensures KeysOf(entities, s).Success? && CheckFound(keys, entities, s).Failure? ==>
      CheckFound(keys, entities, s).error.kind == EntityNotFound
  {
    KeysOfExactly(entities, s);
    if KeysOf(entities, s).Success? {
      var found := KeysOf(entities, s).value;
      ExceptExactly(keys, found);
      if CheckFound(keys, entities, s).Success? {
        assert Except(keys, found) == [];
      } else {
        var k := Except(keys, found)[0];
        assert k in keys && k !in found;
      }
    }
  }

  /** The `Customer` hub type: an entity, a hub, not a link. */
  predicate IsCustomer(t: TypeInfo) {
    t.name == "Customer" && t.isEntity && t.isHub && !t.isLink
  }

  /** A text none of whose characters starts `p` does not contain `p`. */
  lemma {:induction false} AbsentFirstChar(s: string, p: string)
    requires |p| > 0 && forall i :: 0 <= i < |s| ==> s[i] != p[0]
    ensures !Contains(s, p)
    decreases |s|
  {
    if |s| > 0 {
      assert |p| <= |s| ==> s[..|p|][0] == s[0];
      assert forall i :: 0 <= i < |s[1..]| ==> s[1..][i] == s[i + 1];
      AbsentFirstChar(s[1..], p);
    }
  }

  lemma CustomerEntityName(t: TypeInfo)
    requires IsCustomer(t)
    ensures GetEntityName(t) == "Customer" && Conventional(t)
  {
    var s := "Customer";
    assert s == ['C', 'u', 's', 't', 'o', 'm', 'e', 'r'];
    assert forall i :: 0 <= i < |s| ==> s[i] != 'D' && s[i] != 'H' && s[i] != 'L' && s[i] != '.';
    AbsentFirstChar(s, DvEntityPrefix);
    AbsentFirstChar(s, HubPropertyPrefix);
    AbsentFirstChar(s, LinkPropertyPrefix);
  }

  /** A conventional hub entity's business key is read back from its hub
      data, as long as the BK property is a plain name other than the id's. */
  lemma HubEntityBk(t: TypeInfo, id: string, bk: string)
    requires Conventional(t) && t.isHub
    requires forall i :: 0 <= i < |BkPropertyName(t)| ==> BkPropertyName(t)[i] != '.'
    requires BkPropertyName(t) != GetEntityName(t) + "Id"
    ensures GetBk(Some(HubEntityRecord(t, id, bk))) == Success(Some(bk))
  {
    HubEntityId(t, id, bk);
    ValueAt(HubDataRecord(t, id, bk), BkPropertyName(t), PStr(bk));
  }

  /** A customer stored with id `a` and business key `x` has that id and that key. */
  lemma SampleCustomerKeys(t: TypeInfo)
    requires IsCustomer(t)
    ensures GetId(Some(HubEntityRecord(t, "a", "x"))) == Success(Some("a"))
    ensures GetBk(Some(HubEntityRecord(t, "a", "x"))) == Success(Some("x"))
  {
    CustomerEntityName(t);
    HubEntityId(t, "a", "x");
    BkPropertyNameOfCustomer(t);
    CustomerNumberPlain();
    HubEntityBk(t, "a", "x");
  }

  /** `CustomerNumber` is a plain property name, other than `CustomerId`. */
  lemma CustomerNumberPlain()
    ensures forall i :: 0 <= i < |"CustomerNumber"| ==> "CustomerNumber"[i] != '.'
    ensures "CustomerNumber" != "Customer" + "Id"
  {
    assert "CustomerNumber"[8] != ("Customer" + "Id")[8];
  }

  /** The keys read off one entity are its key alone. */
  lemma KeysOfOne(e: Record, s: KeySelector, k: string)
    requires SelectKey(s, Some(e)) == Success(Some(k))
    ensures KeysOf([Some(e)], s) == Success([k])
  {
    var es := [Some(e)];
    assert es[..|es| - 1] == [] && es[|es| - 1] == Some(e);
    assert KeysOf(es[..|es| - 1], s) == Success([]);
    assert [] + [k] == [k];
  }

  /** `Except` of one key: the key itself when it is not found, nothing when it is. */
  lemma ExceptOne(k: string, other: string)
    requires k != other
    ensures Except([k], [other]) == [k] && Except([k], [k]) == []
  {
    assert Missing([k], [other]) == [k];
    assert Missing([k], [k]) == [];
    var id := (x: string) => x;
    assert [k][1..] == [];
    assert Distinct([k]) == EnumerableExtension.FirstPerKey([k], id, {});
    assert EnumerableExtension.FirstPerKey([k], id, {}) == [k] + EnumerableExtension.FirstPerKey([], id, {k});
    assert Distinct([]) == [];
  }

  /** One hub read back for one requested key `id`, whose business key
      differs from its id: checked by business key it is reported missing,
      checked by id it is found. */
  lemma KeyMismatch(e: Record, id: string, bk: string)
    requires SelectKey(IdKey, Some(e)) == Success(Some(id)) && SelectKey(BkKey, Some(e)) == Success(Some(bk))
    requires id != bk && !Blank(id)
    ensures CheckFound([id], [Some(e)], BkKey) == Failure(NotFound(id))
    ensures CheckFound([id], [Some(e)], IdKey) == Success([Some(e)])
  {
    KeysOfOne(e, BkKey, bk);
    KeysOfOne(e, IdKey, id);
    ExceptOne(id, bk);
    assert EnumerableExtension.NonBlank([id]) == [id] by {
      assert [id][1..] == [];
    }
    assert EnumerableExtension.JoinNotEmpty([id], ", ") == id;
  }

  /** The ids requested in `CheckExistPKsAndGetList`, compared with the
      business keys of the hubs read (as written): asking for the customer
      `a` (business key `x`) that was read back reports it as not found,
      while comparing with the ids accepts it. */
  lemma IdsComparedWithBusinessKeys(t: TypeInfo)
    requires IsCustomer(t)
    ensures CheckFound(["a"], [Some(HubEntityRecord(t, "a", "x"))], BkKey) == Failure(NotFound("a"))
    ensures CheckFound(["a"], [Some(HubEntityRecord(t, "a", "x"))], IdKey) == Success([Some(HubEntityRecord(t, "a", "x"))])
  {
    SampleCustomerKeys(t);
    assert !Blank("a") by {
      assert "a"[0] == 'a' && !IsWhiteSpace('a');
    }
    KeyMismatch(HubEntityRecord(t, "a", "x"), "a", "x");
  }

  /** `entity` with the hub property set to null, as
      `SetValueByPath(entity, type, hubPropertyName, null)` leaves it; a null
      entity or a missing property throws. */
  function ClearHub(rec: Option<Record>): (r: Result<Record, Exn>)
    ensures r.Failure? <==> rec.None? || GetHubPropertyName(rec.value.ty) !in rec.value.props
    ensures r.Success? ==>
      var name := GetHubPropertyName(rec.value.ty);
      r.value.ty == rec.value.ty && r.value.props.Keys == rec.value.props.Keys && r.value.props[name] == PNull &&
      forall k :: k in rec.value.props && k != name ==> r.value.props[k] == rec.value.props[k]
  {
    if rec.None? then Failure(Raise(NullReference, "Object reference not set to an instance of an object."))
    else
      var name := GetHubPropertyName(rec.value.ty);
      if name !in rec.value.props then Failure(Raise(NullReference, "Object reference not set to an instance of an object."))
      else Success(Record(rec.value.ty, rec.value.props[name := PNull]))
  }

  /** Clearing the hub twice changes nothing more. */
  lemma ClearHubIdempotent(rec: Option<Record>)
    requires ClearHub(rec).Success?
    ensures ClearHub(Some(ClearHub(rec).value)) == ClearHub(rec)
  {
    var r := rec.value;
    var name := GetHubPropertyName(r.ty);
    assert r.props[name := PNull][name := PNull] == r.props[name := PNull];
  }

  class HubRepository {
    const base: DataVaultRepository
    const context: DataVaultContext
    const entity: TypeInfo
    const serialize: Record -> Json

    /** `new HubRepository<T>(context)`, with its shared-repository part. */
    constructor (context: DataVaultContext, entity: TypeInfo, serialize: Record -> Json)
      ensures this.context == context && this.entity == entity && this.serialize == serialize
      ensures Valid() && fresh(base)
    {
      var b := new DataVaultRepository(context, entity);
      base := b;
      this.context := context;
      this.entity := entity;
      this.serialize := serialize;
    }

    /** The shared part works on the same context and entity type. */
    predicate Valid() {
      base.context == context && base.entity == entity
    }

    /** A nullable entity as the JSON the context sends. */
    function Serialized(x: Option<Record>): (r: Option<Json>)
      ensures r.Some? <==> x.Some?
    {
      if x.Some? then Some(serialize(x.value)) else None
    }

    /** The read `Find(id, includeDetails)` makes. */
    function FindCall(id: Option<string>, includeDetails: bool): ProcCall {
      ReadRecordCall(entity, Some(ColumnEquals(GetPKColumnName(entity), id)), Some(SatSelection(includeDetails)))
    }

    /** The read `FindByBk(bk, includeDetails)` makes. */
    function FindByBkCall(bk: Option<string>, includeDetails: bool): ProcCall {
      ReadRecordCall(entity, Some(ColumnEquals(GetBKColumnName(entity), bk)), Some(SatSelection(includeDetails)))
    }

    /** What reading one hub with `call`, made next, gives. */
    function RecordRead(call: ProcCall): Result<Option<Record>, Exn>
      reads context
    {
      RecordReadAt(|context.calls|, call)
    }

    /** What reading one hub with `call`, made as the `n`-th call, gives. */
    function RecordReadAt(n: nat, call: ProcCall): Result<Option<Record>, Exn> {
      context.TypedAt(n, call, context.decodeEntity)
    }

    /** `Delete(id)` with `n` calls made: the hub is read without details; a
        failed read or a missing hub is the error, otherwise the delete is
        sent and only a driver error is reported. */
    function DeleteAt(n: nat, id: Option<string>): Outcome {
      match GetAt(n, id, false)
      case Failure(e) => Outcome(Some(e), [FindCall(id, false)])
      case Success(_) =>
        var call := DeleteRecordCall(entity, context.auditInfo, id);
        Outcome(context.ExecutedAt(n + 1, call), [FindCall(id, false), call])
    }

    /** `Get(id, includeDetails)` made as the `n`-th call: the hub read, a
        missing one being not-found. */
    function GetAt(n: nat, id: Option<string>, includeDetails: bool): Result<Record, Exn> {
      match RecordReadAt(n, FindCall(id, includeDetails))
      case Failure(e) => Failure(e)
      case Success(found) => if found.None? then Failure(NotFound(id.GetOr(""))) else Success(found.value)
    }

    /** The hub is always read first; the delete is sent exactly when the
        hub was found, and `Delete` succeeds exactly when the hub was found
        and the delete raised nothing.  A missing hub is not-found. */
    lemma DeleteCases(n: nat, id: Option<string>)
      ensures var out := DeleteAt(n, id);
        var read := RecordReadAt(n, FindCall(id, false));
        var call := DeleteRecordCall(entity, context.auditInfo, id);
        var found := read.Success? && read.value.Some?;
        out.made[..1] == [FindCall(id, false)] &&
        (found ==> out.made == [FindCall(id, false), call]) &&
        (!found ==> out.made == [FindCall(id, false)]) &&
        (out.result.None? <==> found && context.ExecutedAt(n + 1, call).None?) &&
        (read.Failure? ==> out.result == Some(read.error)) &&
        (read == Success(None) ==> out.result == Some(NotFound(id.GetOr(""))))
    {
    }

    /** What a `ReadRecords` call with query `q`, made next, gives. */
    function RecordsRead(q: Json): Result<seq<Option<Record>>, Exn>
      reads context
    {
      OrEmpty(context.Typed(ReadRecordsCall(entity, Some(q)), context.decodeEntities))
    }

    /** The query of hubs by id (`byBk` false) or by business key. */
    function KeysQuery(byBk: bool, keys: seq<string>, includeDetails: bool): Json {
      if byBk then BKsQuery(entity, keys, includeDetails) else PKsQuery(entity, keys, includeDetails)
    }

    /** What `CheckExist...AndGetList` gives in the current state: nothing is
        read when no non-blank key is asked for; otherwise the hubs of the
        non-blank keys are read and checked with selector `s`. */
    function CheckExistOutcome(byBk: bool, keys: Option<seq<string>>, includeDetails: bool, s: KeySelector)
      : Result<seq<Option<Record>>, Exn>
      reads context
    {
      if EnumerableExtension.IsNullOrEmpty(keys) || EnumerableExtension.NonBlank(keys.value) == [] then Success([])
      else
        var wanted := EnumerableExtension.NonBlank(keys.value);
        var read :- RecordsRead(KeysQuery(byBk, wanted, includeDetails));
        CheckFound(wanted, read, s)
    }

    /** `Find(id, includeDetails)`: the hub whose PK column holds the id, or null. */
    method Find(id: Option<string>, includeDetails: bool) returns (r: Result<Option<Record>, Exn>)
      modifies context
      ensures context.calls == old(context.calls) + [FindCall(id, includeDetails)]
      ensures r == old(RecordRead(FindCall(id, includeDetails)))
    {
      r := context.ReadRecord(entity, Some(ColumnEquals(GetPKColumnName(entity), id)), Some(SatSelection(includeDetails)));
    }

    /** `Get(id, includeDetails)`: the hub found by `Find`; none found throws. */
    method Get(id: Option<string>, includeDetails: bool) returns (r: Result<Record, Exn>)
      modifies context
      ensures context.calls == old(context.calls) + [FindCall(id, includeDetails)]
      ensures old(RecordRead(FindCall(id, includeDetails))).Failure? ==>
        r == Failure(old(RecordRead(FindCall(id, includeDetails))).error)
      ensures old(RecordRead(FindCall(id, includeDetails))) == Success(None) ==> r == Failure(NotFound(id.GetOr("")))
      ensures r.Success? <==> (old(RecordRead(FindCall(id, includeDetails))).Success? &&
        old(RecordRead(FindCall(id, includeDetails))).value.Some?)
      ensures r.Success? ==> Some(r.value) == old(RecordRead(FindCall(id, includeDetails))).value
      ensures r == GetAt(|old(context.calls)|, id, includeDetails)
    {
      var found := Find(id, includeDetails);
      if found.Failure? {
        return Failure(found.error);
      }
      if found.value.None? {
        return Failure(NotFound(id.GetOr("")));
      }
      r := Success(found.value.value);
    }

    /** `Create(entity)`: the hub data and the entity are sent; the new id is
        what the procedure answers. */
    method Create(rec: Option<Record>) returns (r: Result<Option<string>, Exn>)
      modifies context
      ensures GetHubData(rec).Failure? ==> r == Failure(FaultExn(GetHubData(rec).error)) && context.calls == old(context.calls)
      ensures GetHubData(rec).Success? ==>
        var call := CreateRecordCall(entity, context.auditInfo, Serialized(GetHubData(rec).value), Serialized(rec));
        context.calls == old(context.calls) + [call] && r == old(context.Handled(call))
    {
      var hub := GetHubData(rec);
      if hub.Failure? {
        return Failure(FaultExn(hub.error));
      }
      r := context.CreateRecord(entity, Serialized(hub.value), Serialized(rec));
    }

    /** `Update(id, entity)`: the entity's hub property is cleared in place
        (`updated` is the entity afterwards), so only satellite data is
        sent; with no satellite value nothing is sent. */
    method Update(id: Option<string>, rec: Option<Record>) returns (r: Option<Exn>, updated: Option<Record>)
      modifies context
      ensures ClearHub(rec).Failure? ==> r == Some(ClearHub(rec).error) && updated == rec && context.calls == old(context.calls)
      ensures ClearHub(rec).Success? ==> updated == Some(ClearHub(rec).value)
      ensures ClearHub(rec).Success? ==>
        var sat := Some(serialize(ClearHub(rec).value));
        var call := UpdateRecordCall(entity, context.auditInfo, id, sat);
        (HasSatValues(sat).Failure? ==> r == Some(HasSatValues(sat).error) && context.calls == old(context.calls)) &&
        (HasSatValues(sat) == Success(false) ==> r.None? && context.calls == old(context.calls)) &&
        (HasSatValues(sat) == Success(true) ==>
           context.calls == old(context.calls) + [call] &&
           (r.None? <==> old(context.Handled(call)).Success?) &&
           (r.Some? ==> r == Some(old(context.Handled(call)).error)))
    {
      var cleared := ClearHub(rec);
      if cleared.Failure? {
        return Some(cleared.error), rec;
      }
      updated := Some(cleared.value);
      var res := context.UpdateRecord(entity, id, Some(serialize(cleared.value)));
      r := if res.Failure? then Some(res.error) else None;
    }

    /** `Delete(id)`: the hub is read first, so a missing hub throws and
        nothing is deleted; otherwise the delete is sent. */
    method Delete(id: Option<string>) returns (r: Option<Exn>)
      modifies context
      ensures var out := DeleteAt(|old(context.calls)|, id);
        r == out.result && context.calls == old(context.calls) + out.made
    {
      var found := Get(id, false);
      if found.Failure? {
        return Some(found.error);
      }
      r := context.DeleteRecord(entity, id);
    }

    /** `Delete(entity)` of the shared repository: `Delete(id)` with the
        entity's id. */
    method DeleteEntity(rec: Option<Record>) returns (r: Option<Exn>)
      modifies context
      ensures GetId(rec).Failure? ==> r == Some(FaultExn(GetId(rec).error)) && context.calls == old(context.calls)
      ensures GetId(rec).Success? ==>
        var out := DeleteAt(|old(context.calls)|, GetId(rec).value);
        r == out.result && context.calls == old(context.calls) + out.made
    {
      var id := GetId(rec);
      if id.Failure? {
        return Some(FaultExn(id.error));
      }
      r := Delete(id.value);
    }

    /** `FindByHub(hubData)`: the hub matching the hub data. */
    method FindByHub(hub: Option<Record>, includeDetails: bool) returns (r: Result<Option<Record>, Exn>)
      modifies context
      ensures context.calls == old(context.calls) + [ReadRecordCall(entity, Serialized(hub), Some(SatSelection(includeDetails)))]
      ensures r == old(RecordRead(ReadRecordCall(entity, Serialized(hub), Some(SatSelection(includeDetails)))))
    {
      r := context.ReadRecord(entity, Serialized(hub), Some(SatSelection(includeDetails)));
    }

    /** `GetByHub(hubData, includeDetails)`: `FindByHub(hubData)` with its
        default selection, so every satellite column is read whatever
        `includeDetails` says; none found throws with the hub data's JSON. */
    method GetByHub(hub: Option<Record>, includeDetails: bool) returns (r: Result<Record, Exn>)
      modifies context
      ensures context.calls == old(context.calls) + [ReadRecordCall(entity, Serialized(hub), Some(AllColumns))]
      ensures var found := old(RecordRead(ReadRecordCall(entity, Serialized(hub), Some(AllColumns))));
        (found.Failure? ==> r == Failure(found.error)) &&
        (found == Success(None) ==> r == Failure(NotFound(ToJsonString(Serialized(hub)).GetOr("")))) &&
        (found.Success? && found.value.Some? ==> r == Success(found.value.value))
    {
      var found := FindByHub(hub, true);
      if found.Failure? {
        return Failure(found.error);
      }
      if found.value.None? {
        return Failure(NotFound(ToJsonString(Serialized(hub)).GetOr("")));
      }
      r := Success(found.value.value);
    }

    /** `FindByBk(bk, includeDetails)`: the hub whose BK column holds the key, or null. */
    method FindByBk(bk: Option<string>, includeDetails: bool) returns (r: Result<Option<Record>, Exn>)
      modifies context
      ensures context.calls == old(context.calls) + [FindByBkCall(bk, includeDetails)]
      ensures r == old(RecordRead(FindByBkCall(bk, includeDetails)))
    {
      r := context.ReadRecord(entity, Some(ColumnEquals(GetBKColumnName(entity), bk)), Some(SatSelection(includeDetails)));
    }

    /** `GetByBk(bk, includeDetails)`: the hub found by `FindByBk`; none
        found, or one without an id, throws. */
    method GetByBk(bk: Option<string>, includeDetails: bool) returns (r: Result<Record, Exn>)
      modifies context
      ensures context.calls == old(context.calls) + [FindByBkCall(bk, includeDetails)]
      ensures old(RecordRead(FindByBkCall(bk, includeDetails))) == Success(None) ==> r == Failure(NotFound(bk.GetOr("")))
      ensures r.Success? ==>
        Success(Some(r.value)) == old(RecordRead(FindByBkCall(bk, includeDetails))) &&
        GetId(Some(r.value)).Success? && GetId(Some(r.value)).value.Some? && GetId(Some(r.value)).value.value != ""
      ensures (old(RecordRead(FindByBkCall(bk, includeDetails))).Success? &&
        old(RecordRead(FindByBkCall(bk, includeDetails))).value.Some? &&
        GetId(old(RecordRead(FindByBkCall(bk, includeDetails))).value).Success?) ==>
        (r.Success? <==> GetId(old(RecordRead(FindByBkCall(bk, includeDetails))).value).value.GetOr("") != "")
    {
      var found := FindByBk(bk, includeDetails);
      if found.Failure? {
        return Failure(found.error);
      }
      if found.value.None? {
        return Failure(NotFound(bk.GetOr("")));
      }
      var id := GetId(found.value);
      if id.Failure? {
        return Failure(FaultExn(id.error));
      }
      if id.value.None? || id.value.value == "" {
        return Failure(NotFound(bk.GetOr("")));
      }
      r := Success(found.value.value);
    }

    /** `GetListByIds(ids, includeDetails)`: no ids reads nothing. */
    method GetListByIds(ids: Option<seq<string>>, includeDetails: bool) returns (r: Result<seq<Option<Record>>, Exn>)
      modifies context
      ensures EnumerableExtension.IsNullOrEmpty(ids) ==> r == Success([]) && context.calls == old(context.calls)
      ensures !EnumerableExtension.IsNullOrEmpty(ids) ==>
        context.calls == old(context.calls) + [ReadRecordsCall(entity, Some(PKsQuery(entity, ids.value, includeDetails)))] &&
        r == old(RecordsRead(PKsQuery(entity, ids.value, includeDetails)))
    {
      if EnumerableExtension.IsNullOrEmpty(ids) {
        return Success([]);
      }
      r := context.ReadRecords(entity, Some(PKsQuery(entity, ids.value, includeDetails)));
    }

    /** `GetListByBKs(bks, includeDetails)`: no keys reads nothing. */
    method GetListByBKs(bks: Option<seq<string>>, includeDetails: bool) returns (r: Result<seq<Option<Record>>, Exn>)
      modifies context
      ensures EnumerableExtension.IsNullOrEmpty(bks) ==> r == Success([]) && context.calls == old(context.calls)
      ensures !EnumerableExtension.IsNullOrEmpty(bks) ==>
        context.calls == old(context.calls) + [ReadRecordsCall(entity, Some(BKsQuery(entity, bks.value, includeDetails)))] &&
        r == old(RecordsRead(BKsQuery(entity, bks.value, includeDetails)))
    {
      if EnumerableExtension.IsNullOrEmpty(bks) {
        return Success([]);
      }
      r := context.ReadRecords(entity, Some(BKsQuery(entity, bks.value, includeDetails)));
    }

    /** `CheckExistBKsAndGetList(bks, includeDetails)`: the hubs of the
        non-blank keys; every one of those keys must be the business key of
        a hub read, otherwise the missing ones are reported. */
    method CheckExistBKsAndGetList(bks: Option<seq<string>>, includeDetails: bool)
      returns (r: Result<seq<Option<Record>>, Exn>)
      modifies context
      ensures r == old(CheckExistOutcome(true, bks, includeDetails, BkKey))
      ensures EnumerableExtension.IsNullOrEmpty(bks) || EnumerableExtension.NonBlank(bks.value) == [] ==>
        context.calls == old(context.calls)
      ensures !EnumerableExtension.IsNullOrEmpty(bks) && EnumerableExtension.NonBlank(bks.value) != [] ==>
        context.calls == old(context.calls) +
          [ReadRecordsCall(entity, Some(BKsQuery(entity, EnumerableExtension.NonBlank(bks.value), includeDetails)))]
      ensures r.Success? && bks.Some? ==>
        forall k :: k in EnumerableExtension.NonBlank(bks.value) ==>
          exists i :: 0 <= i < |r.value| && SelectKey(BkKey, r.value[i]) == Success(Some(k))
    {
      ghost var outcome := CheckExistOutcome(true, bks, includeDetails, BkKey);
      if EnumerableExtension.IsNullOrEmpty(bks) {
        return Success([]);
      }
      var keys := EnumerableExtension.NonBlank(bks.value);
      ghost var read := RecordsRead(BKsQuery(entity, keys, includeDetails));
      var entities := GetListByBKs(Some(keys), includeDetails);
      if entities.Failure? {
        return Failure(entities.error);
      }
      assert keys != [] ==> entities == read;
      CheckFoundExactly(keys, entities.value, BkKey);
      r := CheckFound(keys, entities.value, BkKey);
    }

    /** `CheckExistBKsAndGetIds(bks)`: the ids of the hubs the check above
        gives, read without satellite details. */
    method CheckExistBKsAndGetIds(bks: Option<seq<string>>) returns (r: Result<seq<string>, Exn>)
      modifies context
      ensures var list := old(CheckExistOutcome(true, bks, false, BkKey));
        (list.Failure? ==> r == Failure(list.error)) &&
        (list.Success? ==> r == KeysOf(list.value, IdKey))
      ensures r.Success? ==>
        var list := old(CheckExistOutcome(true, bks, false, BkKey));
        list.Success? &&
        forall k :: k in r.value <==> exists i :: 0 <= i < |list.value| && GetId(list.value[i]) == Success(Some(k))
    {
      var list := CheckExistBKsAndGetList(bks, false);
      if list.Failure? {
        return Failure(list.error);
      }
      KeysOfExactly(list.value, IdKey);
      r := KeysOf(list.value, IdKey);
    }

    /** `CheckExistPKsAndGetList(ids, includeDetails)` as written: the hubs
        read by id are checked against the requested ids with their
        business keys. */
    method CheckExistPKsAndGetListAsWritten(ids: Option<seq<string>>, includeDetails: bool)
      returns (r: Result<seq<Option<Record>>, Exn>)
      modifies context
      ensures r == old(CheckExistOutcome(false, ids, includeDetails, BkKey))
      ensures !EnumerableExtension.IsNullOrEmpty(ids) && EnumerableExtension.NonBlank(ids.value) != [] ==>
        context.calls == old(context.calls) +
          [ReadRecordsCall(entity, Some(PKsQuery(entity, EnumerableExtension.NonBlank(ids.value), includeDetails)))]
    {
      if EnumerableExtension.IsNullOrEmpty(ids) {
        return Success([]);
      }
      var keys := EnumerableExtension.NonBlank(ids.value);
      ghost var read := RecordsRead(PKsQuery(entity, keys, includeDetails));
      var entities := GetListByIds(Some(keys), includeDetails);
      if entities.Failure? {
        return Failure(entities.error);
      }
      assert keys != [] ==> entities == read;
      r := CheckFound(keys, entities.value, BkKey);
    }

    /** `CheckExistPKsAndGetList(ids, includeDetails)`, comparing ids with
        ids: the hubs of the non-blank ids, every one of which must be the
        id of a hub read. */
    method CheckExistPKsAndGetList(ids: Option<seq<string>>, includeDetails: bool)
      returns (r: Result<seq<Option<Record>>, Exn>)
      modifies context
      ensures r == old(CheckExistOutcome(false, ids, includeDetails, IdKey))
      ensures EnumerableExtension.IsNullOrEmpty(ids) || EnumerableExtension.NonBlank(ids.value) == [] ==>
        context.calls == old(context.calls)
      ensures !EnumerableExtension.IsNullOrEmpty(ids) && EnumerableExtension.NonBlank(ids.value) != [] ==>
        context.calls == old(context.calls) +
          [ReadRecordsCall(entity, Some(PKsQuery(entity, EnumerableExtension.NonBlank(ids.value), includeDetails)))]
      ensures r.Success? && ids.Some? ==>
        forall k :: k in EnumerableExtension.NonBlank(ids.value) ==>
          exists i :: 0 <= i < |r.value| && GetId(r.value[i]) == Success(Some(k))
    {
      if EnumerableExtension.IsNullOrEmpty(ids) {
        return Success([]);
      }
      var keys := EnumerableExtension.NonBlank(ids.value);
      ghost var read := RecordsRead(PKsQuery(entity, keys, includeDetails));
      var entities := GetListByIds(Some(keys), includeDetails);
      if entities.Failure? {
        return Failure(entities.error);
      }
      assert keys != [] ==> entities == read;
      CheckFoundExactly(keys, entities.value, IdKey);
      r := CheckFound(keys, entities.value, IdKey);
    }
  }
}
