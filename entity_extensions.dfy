/** Entity accessors.  The source reaches an entity's parts through
    reflection property paths (`"HubCustomer.Value"`, `"CustomerId.Value"`);
    here an object is a `Record`: its runtime type and its properties by name. */
module EntityExtensions {
  import opened Wrappers
  import opened Text
  import opened StringFormat
  import opened EntityHelper
  import StringExtension

  datatype Prop = PNull | PStr(s: string) | PRec(rec: Record)
  datatype Record = Record(ty: TypeInfo, props: map<string, Prop>)

  datatype Fault =
    | PathNotFound(path: string)   // ArgumentException from the property walk
    | InvalidCast                  // `(string)` or `(IHub)` of a value of another type
    | NotDataVaultEntity           // "Cannot get Id without data vault entity"

  /** The property walk of `GetPropertyValue` over the path's segments: a
      missing property fails, a null on the way gives null. */
  function Walk(cur: Record, segments: seq<string>, path: string): Result<Prop, Fault>
    decreases |segments|
  {
    if segments == [] then Success(PRec(cur))
    else if segments[0] !in cur.props then Failure(PathNotFound(path))
    else
      match cur.props[segments[0]]
      case PNull => Success(PNull)
      case PStr(s) =>
        if |segments| == 1 then Success(PStr(s)) else Failure(PathNotFound(path))
      case PRec(next) => Walk(next, segments[1..], path)
  }

  /** `GetPropertyValue(instance, path)`: null for a null instance, otherwise the walk along `path.Split('.')`. */
  function GetPropertyValue(instance: Option<Record>, path: string): (r: Result<Prop, Fault>)
    ensures instance.None? ==> r == Success(PNull)
  {
    if instance.None? then Success(PNull) else Walk(instance.value, Split(path, {'.'}), path)
  }

  /** `(string)value` */
  function AsString(v: Result<Prop, Fault>): Result<Option<string>, Fault> {
    match v
    case Failure(f) => Failure(f)
    case Success(PNull) => Success(None)
    case Success(PStr(s)) => Success(Some(s))
    case Success(PRec(_)) => Failure(InvalidCast)
  }

  /** `(IHub)value` / `(ILink)value` */
  function AsRecord(v: Result<Prop, Fault>): Result<Option<Record>, Fault> {
    match v
    case Failure(f) => Failure(f)
    case Success(PNull) => Success(None)
    case Success(PStr(_)) => Failure(InvalidCast)
    case Success(PRec(r)) => Success(Some(r))
  }

  /** The id path of a hub or link data object: its type name without `prefix`, then `Id.Value`. */
  function IdPath(dataTypeName: string, prefix: string): string
    requires |prefix| > 0
  {
    ReplaceAll(dataTypeName, prefix, "") + "Id.Value"
  }

  /** `GetId(IHub)` */
  function GetHubId(hub: Option<Record>): (r: Result<Option<string>, Fault>)
    ensures hub.None? ==> r == Success(None)
  {
    if hub.None? then Success(None)
    else AsString(GetPropertyValue(hub, IdPath(hub.value.ty.name, HubPropertyPrefix)))
  }

  /** `GetId(ILink)` */
  function GetLinkId(link: Option<Record>): (r: Result<Option<string>, Fault>)
    ensures link.None? ==> r == Success(None)
  {
    if link.None? then Success(None)
    else AsString(GetPropertyValue(link, IdPath(link.value.ty.name, LinkPropertyPrefix)))
  }

  /** `GetHubData`: the value at `"Hub" + entityName + ".Value"`. */
  function GetHubData(entity: Option<Record>): (r: Result<Option<Record>, Fault>)
    ensures entity.None? ==> r == Success(None)
  {
    if entity.None? then Success(None)
    else AsRecord(GetPropertyValue(entity, GetHubPropertyName(entity.value.ty) + ".Value"))
  }

  /** `GetLinkData`: the value at `"Lnk" + entityName + ".Value"`. */
  function GetLinkData(entity: Option<Record>): (r: Result<Option<Record>, Fault>)
    ensures entity.None? ==> r == Success(None)
  {
    if entity.None? then Success(None)
    else AsRecord(GetPropertyValue(entity, LinkPropertyPrefix + GetEntityName(entity.value.ty) + ".Value"))
  }

  /** `GetId(IDvEntity)`: hubs first, then links; any other entity type throws. */
  function GetId(entity: Option<Record>): (r: Result<Option<string>, Fault>)
    ensures entity.None? ==> r == Success(None)
    ensures entity.Some? && !entity.value.ty.isHub && !entity.value.ty.isLink ==> r == Failure(NotDataVaultEntity)
    ensures entity.Some? && entity.value.ty.isHub && GetHubData(entity).Success? ==> r == GetHubId(GetHubData(entity).value)
    ensures entity.Some? && !entity.value.ty.isHub && entity.value.ty.isLink && GetLinkData(entity).Success? ==>
      r == GetLinkId(GetLinkData(entity).value)
  {
    if entity.None? then Success(None)
    else if entity.value.ty.isHub then
      var data :- GetHubData(entity);
      GetHubId(data)
    else if entity.value.ty.isLink then
      var data :- GetLinkData(entity);
      GetLinkId(data)
    else Failure(NotDataVaultEntity)
  }

  /** `Exist(IDvEntity)`: non-null with a non-blank id. */
  function Exist(entity: Option<Record>): (r: Result<bool, Fault>)
    ensures entity.None? ==> r == Success(false)
    ensures entity.Some? && GetId(entity).Failure? ==> r.Failure?
    ensures entity.Some? && GetId(entity).Success? ==> r == Success(!StringExtension.IsNullOrWhiteSpace(GetId(entity).value))
  {
    if entity.None? then Success(false)
    else
      var id :- GetId(entity);
      Success(!StringExtension.IsNullOrWhiteSpace(id))
  }

  /** `Exist(IDvHubEntity)`: only the hub data's presence matters, not its id. */
  function ExistHubEntity(entity: Option<Record>): (r: Result<bool, Fault>)
    ensures entity.None? ==> r == Success(false)
    ensures entity.Some? && GetHubData(entity).Failure? ==> r.Failure?
    ensures entity.Some? && GetHubData(entity).Success? ==> r == Success(GetHubData(entity).value.Some?)
  {
    if entity.None? then Success(false)
    else
      var data :- GetHubData(entity);
      Success(data.Some?)
  }

  /** `Exist(IDvLinkEntity)`: only the link data's presence matters, not its id. */
  function ExistLinkEntity(entity: Option<Record>): (r: Result<bool, Fault>)
    ensures entity.None? ==> r == Success(false)
    ensures entity.Some? && GetLinkData(entity).Failure? ==> r.Failure?
    ensures entity.Some? && GetLinkData(entity).Success? ==> r == Success(GetLinkData(entity).value.Some?)
  {
    if entity.None? then Success(false)
    else
      var data :- GetLinkData(entity);
      Success(data.Some?)
  }

  /** `ExistHub<THub>`: the entity's `THub` property carries a non-blank id. */
  function ExistHub(entity: Option<Record>, hubTypeName: string): (r: Result<bool, Fault>)
    ensures entity.None? ==> r == Success(false)
  {
    var id :- AsString(GetPropertyValue(entity, hubTypeName + ".Value." + IdPath(hubTypeName, HubPropertyPrefix)));
    Success(!StringExtension.IsNullOrWhiteSpace(id))
  }

  /** `Exist(IHub)` */
  function ExistHubData(hub: Option<Record>): (r: Result<bool, Fault>)
    ensures hub.None? ==> r == Success(false)
  {
    var id :- GetHubId(hub);
    Success(!StringExtension.IsNullOrWhiteSpace(id))
  }

  /** The business-key property: the BK column without `BK_`, in Pascal case. */
  function BkPropertyName(t: TypeInfo): string {
    ToPascalCase(ReplaceAll(GetBKColumnName(t), BKColumnNamePrefix, ""))
  }

  /** `GetBk`: the value of the BK property on the hub data (null if there is no hub data). */
  function GetBk(entity: Option<Record>): (r: Result<Option<string>, Fault>)
    ensures entity.None? ==> r == Success(None)
  {
    if entity.None? then Success(None)
    else
      var data :- GetHubData(entity);
      AsString(GetPropertyValue(data, BkPropertyName(entity.value.ty) + ".Value"))
  }

  lemma CustomerDbName(t: TypeInfo)
    requires t.isEntity && t.name == "Customer"
    ensures GetDbEntityName(t) == "CUSTOMER"
  {
    var e := t.name;
    CustomerLetters();
    ReplaceSkip(e, "", DvEntityPrefix, "");
    assert e + "" == e;
    assert GetEntityName(t) == e;
    CountUpperZero(e[1..]);
    UnderscoreCaseUnchanged(e);
    UpperCustomer();
  }

  /** The letters of `Customer`: no `D` (the `Dv` prefix cannot occur) and no
      upper-case letter after the first. */
  lemma CustomerLetters()
    ensures forall i :: 0 <= i < |"Customer"| ==> "Customer"[i] != DvEntityPrefix[0]
    ensures forall i :: 0 <= i < |"Customer"[1..]| ==> !IsUpper("Customer"[1..][i])
  {
  }

  lemma UpperCustomer()
    ensures Upper("Customer") == "CUSTOMER"
  {
  }

  /** Stripping `BK_` from a business-key column leaves the rest, as long
      as the rest holds no `K` after its first character (so no second `BK_`). */
  lemma BkColumnStripped(rest: string)
    requires forall i :: 1 <= i < |rest| ==> rest[i] != BKColumnNamePrefix[1]
    ensures ReplaceAll(BKColumnNamePrefix + rest, BKColumnNamePrefix, "") == rest
  {
    ReplacePrefix(BKColumnNamePrefix, rest, "");
    ReplaceNoPair(rest, BKColumnNamePrefix, "");
  }

  lemma CustomerBkColumn()
    ensures BKColumnNamePrefix + "CUSTOMER" + "_NUMBER" == BKColumnNamePrefix + "CUSTOMER_NUMBER"
    ensures forall i :: 1 <= i < |"CUSTOMER_NUMBER"| ==> "CUSTOMER_NUMBER"[i] != BKColumnNamePrefix[1]
  {
  }

  /** The business-key property of the `Customer` hub is `CustomerNumber`. */
  lemma BkPropertyNameOfCustomer(t: TypeInfo)
    requires t.isEntity && t.name == "Customer"
    ensures BkPropertyName(t) == "CustomerNumber"
  {
    CustomerDbName(t);
    CustomerBkColumn();
    BkColumnStripped("CUSTOMER_NUMBER");
    PascalCaseExample();
  }

  // ---- The record layout the property paths describe ----

  /** An `Optional<T>` property: a struct whose `Value` is the payload. */
  function Wrapped(v: Prop): Prop {
    PRec(Record(TypeInfo("Optional`1", false, false, false), map["Value" := v]))
  }

  /** Entity types whose names keep the paths well formed: no `.` in the
      name, and the entity name does not itself contain `Hub` or `Lnk`. */
  predicate Conventional(t: TypeInfo) {
    t.isEntity && (forall i :: 0 <= i < |t.name| ==> t.name[i] != '.')
    && !Contains(GetEntityName(t), HubPropertyPrefix) && !Contains(GetEntityName(t), LinkPropertyPrefix)
  }

  /** The hub data object `Hub<Name>` with properties `<Name>Id` and the BK property. */
  function HubDataRecord(t: TypeInfo, id: string, bk: string): Record {
    Record(TypeInfo(HubPropertyPrefix + GetEntityName(t), false, false, false),
      map[BkPropertyName(t) := Wrapped(PStr(bk))][GetEntityName(t) + "Id" := Wrapped(PStr(id))])
  }

  /** A hub entity whose `Hub<Name>` property holds `HubDataRecord(t, id, bk)`. */
  function HubEntityRecord(t: TypeInfo, id: string, bk: string): Record {
    Record(t, map[GetHubPropertyName(t) := Wrapped(PRec(HubDataRecord(t, id, bk)))])
  }

  /** The link data object `Lnk<Name>`: `<Name>Id` plus the id properties of
      the linked hubs, `ends` being keyed by property name (`<Other>Id`). */
  function LinkDataRecord(t: TypeInfo, id: string, ends: map<string, string>): Record {
    Record(TypeInfo(LinkPropertyPrefix + GetEntityName(t), false, false, false),
      (map k | k in ends :: Wrapped(PStr(ends[k])))[GetEntityName(t) + "Id" := Wrapped(PStr(id))])
  }

  /** A link entity whose `Lnk<Name>` property holds `LinkDataRecord(t, id, ends)`. */
  function LinkEntityRecord(t: TypeInfo, id: string, ends: map<string, string>): Record {
    Record(t, map[LinkPropertyPrefix + GetEntityName(t) := Wrapped(PRec(LinkDataRecord(t, id, ends)))])
  }

  lemma {:induction false} RemovedAvoids(s: string, p: string, c: char)
    requires |p| > 0 && forall i :: 0 <= i < |s| ==> s[i] != c
    ensures forall i :: 0 <= i < |ReplaceAll(s, p, "")| ==> ReplaceAll(s, p, "")[i] != c
    decreases |s|
  {
    if |s| >= |p| {
      if s[..|p|] == p {
        RemovedAvoids(s[|p|..], p, c);
      } else {
        RemovedAvoids(s[1..], p, c);
      }
    }
  }

  /** Reading `name.Value` where `name` holds an `Optional` wrapping a non-null value. */
  lemma WalkWrapped(rec: Record, name: string, v: Prop, path: string)
    requires name in rec.props && rec.props[name] == Wrapped(v) && !v.PNull?
    ensures Walk(rec, [name, "Value"], path) == Success(v)
  {
    var segs := [name, "Value"];
    assert segs[1..] == ["Value"];
    var inner := rec.props[name].rec;
    assert Walk(rec, segs, path) == Walk(inner, ["Value"], path);
    var vs: seq<string> := ["Value"];
    assert vs[1..] == [];
    if v.PRec? {
      assert Walk(inner, vs, path) == Walk(v.rec, [], path);
    }
  }

  lemma SplitTwo(a: string, b: string)
    requires forall i :: 0 <= i < |a| ==> a[i] != '.'
    requires forall i :: 0 <= i < |b| ==> b[i] != '.'
    ensures Split(a + "." + b, {'.'}) == [a, b]
  {
    SplitAt(a, '.', b, {'.'});
    SplitWord(b, {'.'});
  }

  /** The property `name.Value` of a record whose `name` holds an `Optional`
      wrapping a non-null value is that value. */
  lemma ValueAt(rec: Record, name: string, v: Prop)
    requires forall i :: 0 <= i < |name| ==> name[i] != '.'
    requires name in rec.props && rec.props[name] == Wrapped(v) && !v.PNull?
    ensures GetPropertyValue(Some(rec), name + ".Value") == Success(v)
  {
    var path := name + ".Value";
    assert path == name + "." + "Value";
    ValueHasNoDot();
    SplitTwo(name, "Value");
    WalkWrapped(rec, name, v, path);
  }

  lemma ValueHasNoDot()
    ensures forall i :: 0 <= i < |"Value"| ==> "Value"[i] != '.'
  {
  }

  /** A name without dots keeps none after a prefix without dots or a suffix without dots. */
  lemma DotFree(a: string, b: string)
    requires forall i :: 0 <= i < |a| ==> a[i] != '.'
    requires forall i :: 0 <= i < |b| ==> b[i] != '.'
    ensures forall i :: 0 <= i < |a + b| ==> (a + b)[i] != '.'
  {
  }

  lemma PrefixesHaveNoDot()
    ensures forall i :: 0 <= i < |HubPropertyPrefix| ==> HubPropertyPrefix[i] != '.'
    ensures forall i :: 0 <= i < |LinkPropertyPrefix| ==> LinkPropertyPrefix[i] != '.'
    ensures forall i :: 0 <= i < |"Id"| ==> "Id"[i] != '.'
  {
  }

  /** The id path of the data object `<prefix><Name>` is `<Name>Id.Value` when
      the name does not itself contain the prefix. */
  lemma IdPathOf(e: string, prefix: string)
    requires |prefix| > 0 && !Contains(e, prefix)
    ensures IdPath(prefix + e, prefix) == (e + "Id") + ".Value"
  {
    ReplacePrefix(prefix, e, "");
    ReplaceAbsent(e, prefix, "");
    assert e + "Id.Value" == (e + "Id") + ".Value";
  }

  lemma EntityNameAvoidsDot(t: TypeInfo)
    requires Conventional(t)
    ensures forall i :: 0 <= i < |GetEntityName(t)| ==> GetEntityName(t)[i] != '.'
  {
    RemovedAvoids(t.name, DvEntityPrefix, '.');
  }

  /** Reading the layout back: the hub data is found at the hub property path
      and its id at `<Name>Id.Value`, so `GetId` returns the id stored there. */
  lemma HubEntityId(t: TypeInfo, id: string, bk: string)
    requires Conventional(t) && t.isHub
    ensures GetHubData(Some(HubEntityRecord(t, id, bk))) == Success(Some(HubDataRecord(t, id, bk)))
    ensures GetId(Some(HubEntityRecord(t, id, bk))) == Success(Some(id))
  {
    var e := GetEntityName(t);
    var data := HubDataRecord(t, id, bk);
    EntityNameAvoidsDot(t);
    PrefixesHaveNoDot();
    DotFree(HubPropertyPrefix, e);
    ValueAt(HubEntityRecord(t, id, bk), HubPropertyPrefix + e, PRec(data));
    HubIdAt(t, id, bk);
  }

  /** The hub data object's id is read back from `<Name>Id.Value`. */
  lemma HubIdAt(t: TypeInfo, id: string, bk: string)
    requires Conventional(t)
    ensures GetHubId(Some(HubDataRecord(t, id, bk))) == Success(Some(id))
  {
    var e := GetEntityName(t);
    var data := HubDataRecord(t, id, bk);
    EntityNameAvoidsDot(t);
    PrefixesHaveNoDot();
    DotFree(e, "Id");
    IdPathOf(e, HubPropertyPrefix);
    ValueAt(data, e + "Id", PStr(id));
  }

  /** The same for links: `GetId` returns the id stored at `Lnk<Name>.Value.<Name>Id.Value`. */
  lemma LinkEntityId(t: TypeInfo, id: string, ends: map<string, string>)
    requires Conventional(t) && t.isLink && !t.isHub
    ensures GetLinkData(Some(LinkEntityRecord(t, id, ends))) == Success(Some(LinkDataRecord(t, id, ends)))
    ensures GetId(Some(LinkEntityRecord(t, id, ends))) == Success(Some(id))
  {
    var e := GetEntityName(t);
    var data := LinkDataRecord(t, id, ends);
    EntityNameAvoidsDot(t);
    PrefixesHaveNoDot();
    DotFree(LinkPropertyPrefix, e);
    ValueAt(LinkEntityRecord(t, id, ends), LinkPropertyPrefix + e, PRec(data));
    LinkIdAt(t, id, ends);
  }

  /** The link data object's id is read back from `<Name>Id.Value`. */
  lemma LinkIdAt(t: TypeInfo, id: string, ends: map<string, string>)
    requires Conventional(t)
    ensures GetLinkId(Some(LinkDataRecord(t, id, ends))) == Success(Some(id))
  {
    var e := GetEntityName(t);
    var data := LinkDataRecord(t, id, ends);
    EntityNameAvoidsDot(t);
    PrefixesHaveNoDot();
    DotFree(e, "Id");
    IdPathOf(e, LinkPropertyPrefix);
    ValueAt(data, e + "Id", PStr(id));
  }

  /** An entity type that is neither hub nor link has no id. */
  lemma PlainEntityHasNoId(r: Record)
    requires !r.ty.isHub && !r.ty.isLink
    ensures GetId(Some(r)) == Failure(NotDataVaultEntity)
    ensures Exist(Some(r)).Failure?
  {
  }
}
