/** `DataVaultRepository<TDvEntity>`: the operations every repository has,
    on top of a data-vault context: views, and the links of the entity type
    to other hubs (reading, creating and removing them).

    `entity` is the repository's own entity type; a link operation names
    the link type and, where it takes one, the type on the other end. */
module DataVaultRepositories {
  import opened Wrappers
  import opened Text
  import opened Exceptions
  import opened Json
  import opened EntityHelper
  import opened EntityExtensions
  import opened DataVaultQueries
  import opened DataVaultContexts
  import EnumerableExtension
  import StringExtension

  /** What the entity accessors throw. */
  function FaultExn(f: Fault): Exn {
    match f
    case PathNotFound(path) => Raise(Argument, "Properties path is not correct. Path: " + path)
    case InvalidCast => Raise(Exceptions.InvalidCast, "Specified cast is not valid.")
    case NotDataVaultEntity => Raise(General, "Cannot get Id without data vault entity")
  }

  /** The key the repositories read off an entity: its id, its business
      key, or (on a link) the id of the hub of type `linked`. */
  datatype KeySelector = IdKey | BkKey | LinkedIdKey(linked: TypeInfo)

  /** The id path of the hub of type `linked` inside link data: `<Name>Id.Value`. */
  function LinkedIdPath(linked: TypeInfo): string {
    GetEntityName(linked) + "Id.Value"
  }

  function SelectKey(s: KeySelector, x: Option<Record>): Result<Option<string>, Fault> {
    match s
    case IdKey => GetId(x)
    case BkKey => GetBk(x)
    case LinkedIdKey(linked) =>
      var data :- GetLinkData(x);
      AsString(GetPropertyValue(data, LinkedIdPath(linked)))
  }

  /** `ConvertArray(x => key(x))`: every key in order, nulls dropped; the
      first entity whose key cannot be read throws. */
  function KeysOf(items: seq<Option<Record>>, s: KeySelector): (r: Result<seq<string>, Exn>)
    decreases |items|
  {
    if items == [] then Success([])
    else
      var init :- KeysOf(items[..|items| - 1], s);
      match SelectKey(s, items[|items| - 1])
      case Failure(f) => Failure(FaultExn(f))
      case Success(k) => Success(init + if k.Some? then [k.value] else [])
  }

  /** The keys read are exactly the non-null keys of the entities, and they
      are read whenever no entity's key throws. */
  lemma {:induction false} KeysOfExactly(items: seq<Option<Record>>, s: KeySelector)
    ensures KeysOf(items, s).Success? <==> forall i :: 0 <= i < |items| ==> SelectKey(s, items[i]).Success?
    ensures KeysOf(items, s).Success? ==>
      forall k :: k in KeysOf(items, s).value <==> exists i :: 0 <= i < |items| && SelectKey(s, items[i]) == Success(Some(k))
    decreases |items|
  {
    if items != [] {
      KeysOfExactly(items[..|items| - 1], s);
      KeysOfSucceedStep(items, s);
      if KeysOf(items, s).Success? {
        KeysOfMembersStep(items, s);
      }
    }
  }

  /** The step of `KeysOfExactly` for success: the last key must be read too. */
  lemma KeysOfSucceedStep(items: seq<Option<Record>>, s: KeySelector)
    requires items != []
    requires var init := items[..|items| - 1];
      KeysOf(init, s).Success? <==> forall i :: 0 <= i < |init| ==> SelectKey(s, init[i]).Success?
    ensures KeysOf(items, s).Success? <==> forall i :: 0 <= i < |items| ==> SelectKey(s, items[i]).Success?
  {
    KeysOfSnoc(items, s);
    AllSnoc(items, items[..|items| - 1], (x: Option<Record>) => SelectKey(s, x).Success?);
  }

  /** A property holds of every element of a non-empty list exactly when it
      holds of all but the last and of the last. */
  lemma AllSnoc<T>(xs: seq<T>, init: seq<T>, p: T -> bool)
    requires xs != [] && init == xs[..|xs| - 1]
    ensures (forall i :: 0 <= i < |xs| ==> p(xs[i])) <==>
      (forall i :: 0 <= i < |init| ==> p(init[i])) && p(xs[|xs| - 1])
  {
    assert forall i :: 0 <= i < |init| ==> init[i] == xs[i];
  }

  /** `KeysOf` succeeds on a non-empty list when it does on all but the last
      item and the last item's key is read. */
  lemma KeysOfSnoc(items: seq<Option<Record>>, s: KeySelector)
    requires items != []
    ensures KeysOf(items, s).Success? <==> KeysOf(items[..|items| - 1], s).Success? && SelectKey(s, items[|items| - 1]).Success?
  {
  }

  /** The step of `KeysOfExactly` for the keys: the last item adds its key, if any. */
  lemma KeysOfMembersStep(items: seq<Option<Record>>, s: KeySelector)
    requires items != [] && KeysOf(items, s).Success?
    requires var init := items[..|items| - 1];
      KeysOf(init, s).Success? ==>
      forall k :: k in KeysOf(init, s).value <==> exists i :: 0 <= i < |init| && SelectKey(s, init[i]) == Success(Some(k))
    ensures forall k :: k in KeysOf(items, s).value <==> exists i :: 0 <= i < |items| && SelectKey(s, items[i]) == Success(Some(k))
  {
    var last := items[|items| - 1];
    var ks := KeysOf(items, s).value;
    var kinit := KeysOf(items[..|items| - 1], s).value;
    assert ks == kinit + if SelectKey(s, last).value.Some? then [SelectKey(s, last).value.value] else [];
    forall k ensures k in ks <==> exists i :: 0 <= i < |items| && SelectKey(s, items[i]) == Success(Some(k)) {
      AnySnoc(items, items[..|items| - 1], (x: Option<Record>) => SelectKey(s, x) == Success(Some(k)));
    }
  }

  /** A property holds of some element of a non-empty list exactly when it
      holds of one of all but the last or of the last. */
  lemma AnySnoc<T>(xs: seq<T>, init: seq<T>, p: T -> bool)
    requires xs != [] && init == xs[..|xs| - 1]
    ensures (exists i :: 0 <= i < |xs| && p(xs[i])) <==>
      (exists i :: 0 <= i < |init| && p(init[i])) || p(xs[|xs| - 1])
  {
    assert forall i :: 0 <= i < |init| ==> init[i] == xs[i];
  }

  /** `Distinct()`: first occurrences, in order. */
  function Distinct(xs: seq<string>): seq<string> {
    EnumerableExtension.FirstPerKey(xs, (x: string) => x, {})
  }

  /** `Distinct()` keeps every element once and adds none. */
  lemma DistinctExactly(xs: seq<string>)
    ensures forall a, b :: 0 <= a < b < |Distinct(xs)| ==> Distinct(xs)[a] != Distinct(xs)[b]
    ensures forall x :: x in Distinct(xs) <==> x in xs
  {
    var id := (x: string) => x;
    EnumerableExtension.FirstPerKeyFresh(xs, id, {});
    EnumerableExtension.FirstPerKeyFirst(xs, id, {});
    EnumerableExtension.FirstPerKeyCovers(xs, id, {});
    forall x ensures x in Distinct(xs) <==> x in xs {
      if x in xs {
        var j :| 0 <= j < |xs| && xs[j] == x;
        assert EnumerableExtension.HasKey(Distinct(xs), id, id(xs[j]));
      }
      if x in Distinct(xs) {
        var k :| 0 <= k < |Distinct(xs)| && Distinct(xs)[k] == x;
        assert EnumerableExtension.FirstWithItsKey(xs, id, Distinct(xs)[k]);
      }
    }
  }
  /** The ids `GetLinkedEntityIds` gives for the links read: the `linked`
      key of each link, nulls dropped, first occurrences in order. */
  function LinkedIds(links: seq<Option<Record>>, linked: TypeInfo): Result<seq<string>, Exn> {
    var keys :- KeysOf(links, LinkedIdKey(linked));
    Success(Distinct(keys))
  }

  /** Every link's key is read unless one throws; the ids are then each
      linked hub's key exactly once, and nothing else. */
  lemma LinkedIdsExactly(links: seq<Option<Record>>, linked: TypeInfo)
    ensures LinkedIds(links, linked).Success? <==> forall i :: 0 <= i < |links| ==> SelectKey(LinkedIdKey(linked), links[i]).Success?
    ensures LinkedIds(links, linked).Success? ==> var ids := LinkedIds(links, linked).value;
      (forall a, b :: 0 <= a < b < |ids| ==> ids[a] != ids[b]) &&
      (forall k :: k in ids <==> exists i :: 0 <= i < |links| && SelectKey(LinkedIdKey(linked), links[i]) == Success(Some(k)))
  {
    KeysOfExactly(links, LinkedIdKey(linked));
    var keys := KeysOf(links, LinkedIdKey(linked));
    if keys.Success? {
      DistinctExactly(keys.value);
    }
  }


  /** The ids of the links, in order (a null link has a null id). */
  function LinkIds(links: seq<Option<Record>>): (r: Result<seq<Option<string>>, Exn>)
    ensures r.Success? ==> |r.value| == |links|
    decreases |links|
  {
    if links == [] then Success([])
    else
      var init :- LinkIds(links[..|links| - 1]);
      match GetId(links[|links| - 1])
      case Failure(f) => Failure(FaultExn(f))
      case Success(id) => Success(init + [id])
  }

  /** One `UnLinkRecord` call per id, in order. */
  function UnLinkCalls(linkType: TypeInfo, auditInfo: Option<Json>, ids: seq<Option<string>>): (r: seq<ProcCall>)
    ensures |r| == |ids| && forall i :: 0 <= i < |ids| ==> r[i] == UnLinkRecordCall(linkType, auditInfo, ids[i])
  {
    seq(|ids|, i requires 0 <= i < |ids| => UnLinkRecordCall(linkType, auditInfo, ids[i]))
  }

  /** `FirstOrDefault()` */
  function FirstOrNull(rows: seq<Option<Record>>): (r: Option<Record>)
    ensures rows == [] ==> r.None?
    ensures rows != [] ==> r == rows[0]
  {
    if rows == [] then None else rows[0]
  }

  /** The query of hub records by primary key: `filter` holds the `ContainPKs` text. */
  function PKsQuery(t: TypeInfo, ids: seq<string>, includeDetails: bool): Json {
    JObj([("filter", JArr([JStr(ContainPKs(t, ids))])), ("select", SatSelection(includeDetails))])
  }

  /** `new Dictionary { { a, x }, { b, y } }` adds its entries one by one: a
      repeated type throws. */
  function DuplicateKey(t: TypeInfo): Exn {
    Raise(Argument, "An item with the same key has already been added. Key: " + t.name)
  }

  /** A link query with no ids for the entity filters nothing: its filter list is empty. */
  lemma LinksQueryWithoutIds(linkType: TypeInfo, t: TypeInfo, ids: Option<seq<string>>, includeDetails: bool)
    requires EnumerableExtension.IsNullOrEmpty(ids)
    ensures FilterLinksWithPKs(linkType, [(t, ids)], includeDetails).props[0] == ("filter", JArr([]))
  {
    LinkGroupsOfEmpty(linkType, [(t, ids)]);
  }

  /** A link query with ids has exactly one filter group, the entity's. */
  lemma LinksQueryWithIds(linkType: TypeInfo, t: TypeInfo, ids: seq<string>, includeDetails: bool)
    requires ids != []
    ensures FilterLinksWithPKs(linkType, [(t, Some(ids))], includeDetails).props[0] ==
      ("filter", JArr([JStr(LinkGroup(linkType, t, ids))]))
  {
    LinkGroupsOnePerType(linkType, [(t, Some(ids))]);
    var groups := LinkGroups(linkType, [(t, Some(ids))]);
    assert groups == [LinkGroup(linkType, t, ids)];
    assert JStrs(groups) == [JStr(LinkGroup(linkType, t, ids))];
  }

  /** Calls made in three stretches are the calls of the first two, then the third. */
  lemma CallsAssoc(a: seq<ProcCall>, b: seq<ProcCall>, c: seq<ProcCall>)
    ensures a + (b + c) == (a + b) + c
  {
  }

  /** What one `LinkTo` comes to: its result and the calls it makes, in order. */
  datatype LinkStep = LinkStep(result: Result<Option<string>, Exn>, made: seq<ProcCall>)

  /** What `LinkTo` over a list of ids comes to: one result per id (or the
      first failure) and every call made. */
  datatype LinkSteps = LinkSteps(result: Result<seq<Option<string>>, Exn>, made: seq<ProcCall>)

  /** The loop of `LinkTo(entityId, linkToEntityIds)` over `ids` with `n`
      calls made, `step` being `LinkTo` of one id: each id is linked in
      turn, after the calls of the ones before it; the first failure stops
      the loop. */
  function Steps(n: nat, step: (nat, string) -> LinkStep, ids: seq<string>): (r: LinkSteps)
    ensures r.result.Success? ==> |r.result.value| == |ids|
    decreases |ids|
  {
    if ids == [] then LinkSteps(Success([]), [])
    else
      var before := Steps(n, step, ids[..|ids| - 1]);
      if before.result.Failure? then before
      else
        var last := step(n + |before.made|, ids[|ids| - 1]);
        LinkSteps(match last.result case Failure(e) => Failure(e) case Success(x) => Success(before.result.value + [x]),
                  before.made + last.made)
  }

  /** `x` is what `step` gives for `id` once the ids `before` it have been linked. */
  predicate LinkedAfter(n: nat, step: (nat, string) -> LinkStep, before: seq<string>, id: string, x: Option<string>) {
    Steps(n, step, before).result.Success? &&
    step(n + |Steps(n, step, before).made|, id).result == Success(x)
  }

  /** Each link made is what one `LinkTo` gives for its id after the calls
      of the ids before it. */
  lemma {:induction false} StepsElements(n: nat, step: (nat, string) -> LinkStep, ids: seq<string>)
    requires Steps(n, step, ids).result.Success?
    ensures forall i :: 0 <= i < |ids| ==> LinkedAfter(n, step, ids[..i], ids[i], Steps(n, step, ids).result.value[i])
    decreases |ids|
  {
    if ids != [] {
      var init := ids[..|ids| - 1];
      StepsElements(n, step, init);
      forall i | 0 <= i < |ids|
        ensures LinkedAfter(n, step, ids[..i], ids[i], Steps(n, step, ids).result.value[i])
      {
        if i < |init| {
          assert ids[..i] == init[..i];
        } else {
          assert ids[..i] == init;
        }
      }
    }
  }

  /** One more id: once the ids before it are linked, it is linked after
      their calls. */
  lemma StepsSnoc(n: nat, step: (nat, string) -> LinkStep, ids: seq<string>, i: nat, before: seq<Option<string>>, made: seq<ProcCall>)
    requires i < |ids| && Steps(n, step, ids[..i]) == LinkSteps(Success(before), made)
    ensures var last := step(n + |made|, ids[i]);
      Steps(n, step, ids[..i + 1]) ==
        LinkSteps(match last.result case Failure(e) => Failure(e) case Success(x) => Success(before + [x]), made + last.made)
  {
    assert ids[..i + 1][..i] == ids[..i];
  }

  /** With at most two calls per id, the loop makes at most two calls per id. */
  lemma {:induction false} StepsBounded(n: nat, step: (nat, string) -> LinkStep, ids: seq<string>)
    requires forall m: nat, id: string :: |step(m, id).made| <= 2
    ensures |Steps(n, step, ids).made| <= 2 * |ids|
    decreases |ids|
  {
    if ids != [] {
      StepsBounded(n, step, ids[..|ids| - 1]);
    }
  }

  /** Once an id fails, the loop's outcome is that failure with the calls made up to it. */
  lemma {:induction false} StepsFailurePersists(n: nat, step: (nat, string) -> LinkStep, ids: seq<string>, k: nat)
    requires k <= |ids|
    requires Steps(n, step, ids[..k]).result.Failure?
    ensures Steps(n, step, ids) == Steps(n, step, ids[..k])
    decreases |ids|
  {
    if k < |ids| {
      var init := ids[..|ids| - 1];
      assert init[..k] == ids[..k];
      StepsFailurePersists(n, step, init, k);
    } else {
      assert ids[..k] == ids;
    }
  }

  /** What a read made of several calls comes to: its result and the calls made, in order. */
  datatype Fetched = Fetched(result: Result<seq<Option<Record>>, Exn>, made: seq<ProcCall>)

  /** What an operation that only reports an error comes to: the error (if
      any) and the calls made, in order. */
  datatype Outcome = Outcome(result: Option<Exn>, made: seq<ProcCall>)

  class DataVaultRepository {
    const context: DataVaultContext
    const entity: TypeInfo

    constructor (context: DataVaultContext, entity: TypeInfo)
      ensures this.context == context && this.entity == entity
    {
      this.context := context;
      this.entity := entity;
    }

    /** The query `GetLinks(ids)` sends. */
    function LinksQuery(linkType: TypeInfo, ids: Option<seq<string>>, includeDetails: bool): Json {
      FilterLinksWithPKs(linkType, [(entity, ids)], includeDetails)
    }

    /** The query between the entity and one other type. */
    function LinksBetweenQuery(linkType: TypeInfo, linked: TypeInfo, id: string, linkedIds: Option<seq<string>>): Json {
      FilterLinksWithPKs(linkType, [(entity, Some([id])), (linked, linkedIds)], true)
    }

    /** What a `ReadLinks` call with query `q`, made as the `n`-th call, gives. */
    function LinksReadAt(n: nat, linkType: TypeInfo, q: Json): Result<seq<Option<Record>>, Exn> {
      OrEmpty(context.TypedAt(n, ReadLinksCall(linkType, Some(q)), context.decodeEntities))
    }

    /** What a `ReadLinks` call with query `q`, made next, gives. */
    function LinksRead(linkType: TypeInfo, q: Json): Result<seq<Option<Record>>, Exn>
      reads context
    {
      LinksReadAt(|context.calls|, linkType, q)
    }

    /** The new link between the entity's id and the other id. */
    function NewLinkCall(linkType: TypeInfo, other: TypeInfo, entityId: string, id: string): ProcCall {
      LinkRecordCall(linkType, context.auditInfo, Some(LinkObject(entity, other, entityId, id)), Some(EmptyObject))
    }

    /** The end of `LinkTo` once the link between the two ids has been read,
        with `n` calls made: an existing link gives its id and nothing is
        called; otherwise the answer to a new link record is the result. */
    function ReuseOrLinkAt(n: nat, linkType: TypeInfo, other: TypeInfo, entityId: string, id: string, link: Option<Record>): LinkStep {
      match ExistLinkEntity(link)
      case Failure(f) => LinkStep(Failure(FaultExn(f)), [])
      case Success(found) =>
        if found then
          LinkStep(match GetId(link) case Failure(f) => Failure(FaultExn(f)) case Success(i) => Success(i), [])
        else
          var call := NewLinkCall(linkType, other, entityId, id);
          LinkStep(context.HandledAt(n, call), [call])
    }

    /** `LinkTo` of a non-blank id of another type with `n` calls made: the
        links between the two ids are read, then the first is reused or a
        new one created. */
    function LinkBetweenAt(n: nat, linkType: TypeInfo, other: TypeInfo, entityId: string, id: string): LinkStep {
      var q := LinksBetweenQuery(linkType, other, entityId, Some([id]));
      var readCall := ReadLinksCall(linkType, Some(q));
      match LinksReadAt(n, linkType, q)
      case Failure(e) => LinkStep(Failure(e), [readCall])
      case Success(links) =>
        var rest := ReuseOrLinkAt(n + 1, linkType, other, entityId, id, FirstOrNull(links));
        LinkStep(rest.result, [readCall] + rest.made)
    }

    /** `LinkTo(entityId, linkToEntityId)` with `n` calls made. */
    function LinkToAt(n: nat, linkType: TypeInfo, other: TypeInfo, entityId: string, linkToEntityId: Option<string>): LinkStep {
      if StringExtension.IsNullOrWhiteSpace(linkToEntityId) then LinkStep(Success(Some("")), [])
      else if other == entity then LinkStep(Failure(DuplicateKey(other)), [])
      else LinkBetweenAt(n, linkType, other, entityId, linkToEntityId.value)
    }

    /** One `LinkTo` makes at most two calls. */
    lemma LinkToAtBounded(n: nat, linkType: TypeInfo, other: TypeInfo, entityId: string, linkToEntityId: Option<string>)
      ensures |LinkToAt(n, linkType, other, entityId, linkToEntityId).made| <= 2
    {
    }

    /** `LinkTo` of one id of the list, with the given number of calls made. */
    function LinkStepOf(linkType: TypeInfo, other: TypeInfo, entityId: string): (nat, string) -> LinkStep {
      (m: nat, id: string) => LinkToAt(m, linkType, other, entityId, Some(id))
    }

    /** `GetListFromView(satQuery)`: the view named after the entity. */
    method GetListFromView(satQuery: Option<Json>) returns (r: Result<seq<Option<Record>>, Exn>)
      modifies context
      ensures context.calls == old(context.calls) + [ReadViewCall(GetEntityName(entity), satQuery)]
      ensures r == OrEmpty(old(context.Typed(ReadViewCall(GetEntityName(entity), satQuery), context.decodeEntities)))
    {
      r := context.ReadViewOf(entity, satQuery);
    }

    /** `GetLinks<TLink>(ids, includeDetails)`: the links of type `linkType`
        that hold one of the ids on the entity's end. */
    method GetLinks(linkType: TypeInfo, ids: Option<seq<string>>, includeDetails: bool) returns (r: Result<seq<Option<Record>>, Exn>)
      modifies context
      ensures context.calls == old(context.calls) + [ReadLinksCall(linkType, Some(LinksQuery(linkType, ids, includeDetails)))]
      ensures r == old(LinksRead(linkType, LinksQuery(linkType, ids, includeDetails)))
    {
      r := context.ReadLinks(linkType, Some(LinksQuery(linkType, ids, includeDetails)));
    }

    /** `GetLinks<TLink>(id, includeDetails)`: the same for one id. */
    method GetLinksOf(linkType: TypeInfo, id: string, includeDetails: bool) returns (r: Result<seq<Option<Record>>, Exn>)
      modifies context
      ensures context.calls == old(context.calls) + [ReadLinksCall(linkType, Some(LinksQuery(linkType, Some([id]), includeDetails)))]
      ensures r == old(LinksRead(linkType, LinksQuery(linkType, Some([id]), includeDetails)))
    {
      r := GetLinks(linkType, Some([id]), includeDetails);
    }

    /** `HasLink<TLink>(id)`: whether any link holds the id. */
    method HasLink(linkType: TypeInfo, id: string) returns (r: Result<bool, Exn>)
      modifies context
      ensures context.calls == old(context.calls) + [ReadLinksCall(linkType, Some(LinksQuery(linkType, Some([id]), true)))]
      ensures r.Success? <==> old(LinksRead(linkType, LinksQuery(linkType, Some([id]), true))).Success?
      ensures r.Success? ==> (r.value <==> old(LinksRead(linkType, LinksQuery(linkType, Some([id]), true))).value != [])
    {
      var links := GetLinksOf(linkType, id, true);
      if links.Failure? {
        return Failure(links.error);
      }
      r := Success(|links.value| > 0);
    }

    /** `GetLinks<TLink, TLinked>(id, linkedIds)`: the links between the id
        and any of the linked ids; with no linked ids nothing is read. */
    method GetLinksBetween(linkType: TypeInfo, linked: TypeInfo, id: string, linkedIds: Option<seq<string>>)
      returns (r: Result<seq<Option<Record>>, Exn>)
      modifies context
      ensures EnumerableExtension.IsNullOrEmpty(linkedIds) ==> r == Success([]) && context.calls == old(context.calls)
      ensures !EnumerableExtension.IsNullOrEmpty(linkedIds) && linked == entity ==>
        r == Failure(DuplicateKey(linked)) && context.calls == old(context.calls)
      ensures !EnumerableExtension.IsNullOrEmpty(linkedIds) && linked != entity ==>
        context.calls == old(context.calls) + [ReadLinksCall(linkType, Some(LinksBetweenQuery(linkType, linked, id, linkedIds)))] &&
        r == old(LinksRead(linkType, LinksBetweenQuery(linkType, linked, id, linkedIds)))
    {
      if EnumerableExtension.IsNullOrEmpty(linkedIds) {
        return Success([]);
      }
      if linked == entity {
        return Failure(DuplicateKey(linked));
      }
      r := context.ReadLinks(linkType, Some(LinksBetweenQuery(linkType, linked, id, linkedIds)));
    }

    /** `GetLink<TLink, TLinked>(id, linkedId)`: the first link between the two ids, or null. */
    method GetLink(linkType: TypeInfo, linked: TypeInfo, id: string, linkedId: string) returns (r: Result<Option<Record>, Exn>)
      modifies context
      ensures linked == entity ==> r == Failure(DuplicateKey(linked)) && context.calls == old(context.calls)
      ensures linked != entity ==>
        context.calls == old(context.calls) + [ReadLinksCall(linkType, Some(LinksBetweenQuery(linkType, linked, id, Some([linkedId]))))]
      ensures linked != entity && old(LinksRead(linkType, LinksBetweenQuery(linkType, linked, id, Some([linkedId])))).Failure? ==>
        r == Failure(old(LinksRead(linkType, LinksBetweenQuery(linkType, linked, id, Some([linkedId])))).error)
      ensures linked != entity && old(LinksRead(linkType, LinksBetweenQuery(linkType, linked, id, Some([linkedId])))).Success? ==>
        r == Success(FirstOrNull(old(LinksRead(linkType, LinksBetweenQuery(linkType, linked, id, Some([linkedId])))).value))
    {
      if linked == entity {
        return Failure(DuplicateKey(linked));
      }
      var links := context.ReadLinks(linkType, Some(LinksBetweenQuery(linkType, linked, id, Some([linkedId]))));
      if links.Failure? {
        return Failure(links.error);
      }
      r := Success(FirstOrNull(links.value));
    }

    /** `ExistLink<TLink, TLinked>(id, linkedId)`: the first link found has a non-blank id. */
    method ExistLink(linkType: TypeInfo, linked: TypeInfo, id: string, linkedId: string) returns (r: Result<bool, Exn>)
      modifies context
      ensures linked == entity ==> r == Failure(DuplicateKey(linked)) && context.calls == old(context.calls)
      ensures linked != entity ==>
        context.calls == old(context.calls) + [ReadLinksCall(linkType, Some(LinksBetweenQuery(linkType, linked, id, Some([linkedId]))))]
      ensures linked != entity && old(LinksRead(linkType, LinksBetweenQuery(linkType, linked, id, Some([linkedId])))).Failure? ==>
        r == Failure(old(LinksRead(linkType, LinksBetweenQuery(linkType, linked, id, Some([linkedId])))).error)
      ensures linked != entity && old(LinksRead(linkType, LinksBetweenQuery(linkType, linked, id, Some([linkedId])))).Success? ==>
        var link := FirstOrNull(old(LinksRead(linkType, LinksBetweenQuery(linkType, linked, id, Some([linkedId])))).value);
        (GetId(link).Failure? ==> r == Failure(FaultExn(GetId(link).error))) &&
        (GetId(link).Success? ==> r == Success(!StringExtension.IsNullOrWhiteSpace(GetId(link).value)))
      ensures r == Success(true) ==> (linked != entity &&
        old(LinksRead(linkType, LinksBetweenQuery(linkType, linked, id, Some([linkedId])))).Success? &&
        old(LinksRead(linkType, LinksBetweenQuery(linkType, linked, id, Some([linkedId])))).value != [])
    {
      var link := GetLink(linkType, linked, id, linkedId);
      if link.Failure? {
        return Failure(link.error);
      }
      var linkId := GetId(link.value);
      if linkId.Failure? {
        return Failure(FaultExn(linkId.error));
      }
      r := Success(!StringExtension.IsNullOrWhiteSpace(linkId.value));
    }

    /** `GetLinkedEntityIds<TLink, TLinked>(ids)`: the ids of the `linked`
        hubs on the links of the given ids, each once, nulls dropped. */
    method GetLinkedEntityIds(linkType: TypeInfo, linked: TypeInfo, ids: Option<seq<string>>) returns (r: Result<seq<string>, Exn>)
      modifies context
      ensures context.calls == old(context.calls) + [ReadLinksCall(linkType, Some(LinksQuery(linkType, ids, false)))]
      ensures old(LinksRead(linkType, LinksQuery(linkType, ids, false))).Failure? ==>
        r == Failure(old(LinksRead(linkType, LinksQuery(linkType, ids, false))).error)
      ensures old(LinksRead(linkType, LinksQuery(linkType, ids, false))).Success? ==>
        r == LinkedIds(old(LinksRead(linkType, LinksQuery(linkType, ids, false))).value, linked)
      ensures r == LinkedIdsAt(|old(context.calls)|, linkType, linked, ids)
    {
      var links := GetLinks(linkType, ids, false);
      if links.Failure? {
        return Failure(links.error);
      }
      r := LinkedIds(links.value, linked);
    }

    /** What `GetLinkedEntityIds(ids)` gives with `n` calls made: the error
        of the link read, or the linked ids of the links read. */
    function LinkedIdsAt(n: nat, linkType: TypeInfo, linked: TypeInfo, ids: Option<seq<string>>): Result<seq<string>, Exn> {
      match LinksReadAt(n, linkType, LinksQuery(linkType, ids, false))
      case Failure(e) => Failure(e)
      case Success(links) => LinkedIds(links, linked)
    }

    /** The end of `GetLinkedEntities` once the linked ids are known, with
        `n` calls made: an error is passed on, no ids read nothing, otherwise
        the hubs with those ids are read. */
    function LinkedHubsAt(n: nat, linked: TypeInfo, ids: Result<seq<string>, Exn>, includeDetails: bool): (r: Fetched)
      ensures ids.Failure? ==> r == Fetched(Failure(ids.error), [])
      ensures ids.Success? && ids.value == [] ==> r == Fetched(Success([]), [])
      ensures ids.Success? && ids.value != [] ==>
        r.made == [ReadRecordsCall(linked, Some(PKsQuery(linked, ids.value, includeDetails)))] &&
        r.result == OrEmpty(context.TypedAt(n, r.made[0], context.decodeEntities))
    {
      match ids
      case Failure(e) => Fetched(Failure(e), [])
      case Success(keys) =>
        if keys == [] then Fetched(Success([]), [])
        else
          var call := ReadRecordsCall(linked, Some(PKsQuery(linked, keys, includeDetails)));
          Fetched(OrEmpty(context.TypedAt(n, call, context.decodeEntities)), [call])
    }

    /** `GetLinkedEntities(id, includeDetails)` with `n` calls made: the
        links of the id are read first, then the hubs they name, if any. */
    function LinkedEntitiesAt(n: nat, linkType: TypeInfo, linked: TypeInfo, id: string, includeDetails: bool): (r: Fetched)
      ensures |r.made| >= 1 && r.made[0] == ReadLinksCall(linkType, Some(LinksQuery(linkType, Some([id]), false)))
    {
      var rest := LinkedHubsAt(n + 1, linked, LinkedIdsAt(n, linkType, linked, Some([id])), includeDetails);
      Fetched(rest.result, [ReadLinksCall(linkType, Some(LinksQuery(linkType, Some([id]), false)))] + rest.made)
    }

    /** The cases of `GetLinkedEntities`: the links are always read first;
        a failed read or an unreadable key is the error; the hubs are read
        only when the links name some, and their read is the result. */
    lemma LinkedEntitiesCases(n: nat, linkType: TypeInfo, linked: TypeInfo, id: string, includeDetails: bool)
      ensures var out := LinkedEntitiesAt(n, linkType, linked, id, includeDetails);
        var read := LinksReadAt(n, linkType, LinksQuery(linkType, Some([id]), false));
        var readCall := ReadLinksCall(linkType, Some(LinksQuery(linkType, Some([id]), false)));
        (read.Failure? ==> out == Fetched(Failure(read.error), [readCall])) &&
        (read.Success? ==>
          var ids := LinkedIds(read.value, linked);
          (ids.Failure? ==> out == Fetched(Failure(ids.error), [readCall])) &&
          (ids.Success? && ids.value == [] ==> out == Fetched(Success([]), [readCall])) &&
          (ids.Success? && ids.value != [] ==>
            out.made == [readCall, ReadRecordsCall(linked, Some(PKsQuery(linked, ids.value, includeDetails)))] &&
            out.result == OrEmpty(context.TypedAt(n + 1, out.made[1], context.decodeEntities))))
    {
    }

    /** `GetLinkedEntities<TLink, TLinked>(id, includeDetails)`: the `linked`
        hubs the id is linked to; with none, nothing more is read. */
    method GetLinkedEntities(linkType: TypeInfo, linked: TypeInfo, id: string, includeDetails: bool)
      returns (r: Result<seq<Option<Record>>, Exn>)
      modifies context
      ensures var out := LinkedEntitiesAt(|old(context.calls)|, linkType, linked, id, includeDetails);
        r == out.result && context.calls == old(context.calls) + out.made
    {
      var ids := GetLinkedEntityIds(linkType, linked, Some([id]));
      r := ReadLinkedHubs(linked, ids, includeDetails);
    }

    /** The end of `GetLinkedEntities` once the linked ids are known. */
    method ReadLinkedHubs(linked: TypeInfo, ids: Result<seq<string>, Exn>, includeDetails: bool)
      returns (r: Result<seq<Option<Record>>, Exn>)
      modifies context
      ensures var out := LinkedHubsAt(|old(context.calls)|, linked, ids, includeDetails);
        r == out.result && context.calls == old(context.calls) + out.made
    {
      if ids.Failure? {
        return Failure(ids.error);
      }
      if ids.value == [] {
        return Success([]);
      }
      r := context.ReadRecords(linked, Some(PKsQuery(linked, ids.value, includeDetails)));
    }

    /** The cases of `LinkTo` of a non-blank id of another type: the links
        between the two ids are read first; a failed read is the error; an
        existing link gives its id without another call; otherwise the
        answer to the new link record, made next, is the result. */
    lemma LinkToCases(n: nat, linkType: TypeInfo, other: TypeInfo, entityId: string, linkToEntityId: Option<string>)
      ensures !StringExtension.IsNullOrWhiteSpace(linkToEntityId) && other != entity ==>
        var step := LinkToAt(n, linkType, other, entityId, linkToEntityId);
        var readCall := ReadLinksCall(linkType, Some(LinksBetweenQuery(linkType, other, entityId, Some([linkToEntityId.value]))));
        var read := LinksReadAt(n, linkType, LinksBetweenQuery(linkType, other, entityId, Some([linkToEntityId.value])));
        [readCall] <= step.made &&
        (read.Failure? ==> step == LinkStep(Failure(read.error), [readCall])) &&
        (read.Success? && ExistLinkEntity(FirstOrNull(read.value)).Failure? ==>
           step == LinkStep(Failure(FaultExn(ExistLinkEntity(FirstOrNull(read.value)).error)), [readCall])) &&
        (read.Success? && ExistLinkEntity(FirstOrNull(read.value)) == Success(true) ==>
           step.made == [readCall] &&
           step.result == (match GetId(FirstOrNull(read.value)) case Failure(f) => Failure(FaultExn(f)) case Success(i) => Success(i))) &&
        (read.Success? && ExistLinkEntity(FirstOrNull(read.value)) == Success(false) ==>
           step == LinkStep(context.HandledAt(n + 1, NewLinkCall(linkType, other, entityId, linkToEntityId.value)),
                            [readCall, NewLinkCall(linkType, other, entityId, linkToEntityId.value)]))
    {
      if !StringExtension.IsNullOrWhiteSpace(linkToEntityId) && other != entity {
        var id := linkToEntityId.value;
        var q := LinksBetweenQuery(linkType, other, entityId, Some([id]));
        assert LinkToAt(n, linkType, other, entityId, linkToEntityId) == LinkBetweenAt(n, linkType, other, entityId, id);
        var read := LinksReadAt(n, linkType, q);
        LinkBetweenAtOf(n, linkType, other, entityId, id, read);
        if read.Success? {
          ReuseOrLinkAtCases(n + 1, linkType, other, entityId, id, FirstOrNull(read.value));
        }
      }
    }

    /** `LinkBetweenAt` once the read has given `read`. */
    lemma LinkBetweenAtOf(n: nat, linkType: TypeInfo, other: TypeInfo, entityId: string, id: string,
                          read: Result<seq<Option<Record>>, Exn>)
      requires read == LinksReadAt(n, linkType, LinksBetweenQuery(linkType, other, entityId, Some([id])))
      ensures var readCall := ReadLinksCall(linkType, Some(LinksBetweenQuery(linkType, other, entityId, Some([id]))));
        (read.Failure? ==> LinkBetweenAt(n, linkType, other, entityId, id) == LinkStep(Failure(read.error), [readCall])) &&
        (read.Success? ==>
          var rest := ReuseOrLinkAt(n + 1, linkType, other, entityId, id, FirstOrNull(read.value));
          LinkBetweenAt(n, linkType, other, entityId, id) == LinkStep(rest.result, [readCall] + rest.made))
    {
    }

    /** The three ends of `ReuseOrLinkAt`, one per answer of `ExistLinkEntity`. */
    lemma ReuseOrLinkAtCases(n: nat, linkType: TypeInfo, other: TypeInfo, entityId: string, id: string, link: Option<Record>)
      ensures ExistLinkEntity(link).Failure? ==>
        ReuseOrLinkAt(n, linkType, other, entityId, id, link) == LinkStep(Failure(FaultExn(ExistLinkEntity(link).error)), [])
      ensures ExistLinkEntity(link) == Success(true) ==>
        ReuseOrLinkAt(n, linkType, other, entityId, id, link)
          == LinkStep(match GetId(link) case Failure(f) => Failure(FaultExn(f)) case Success(i) => Success(i), [])
      ensures ExistLinkEntity(link) == Success(false) ==>
        ReuseOrLinkAt(n, linkType, other, entityId, id, link)
          == LinkStep(context.HandledAt(n, NewLinkCall(linkType, other, entityId, id)), [NewLinkCall(linkType, other, entityId, id)])
    {
    }

    /** `LinkTo<TLink, TLinkTo>(entityId, linkToEntityId)`: a blank id links
        nothing; a link that already exists gives its id; otherwise a new
        link holding both ids is created. */
    method LinkTo(linkType: TypeInfo, other: TypeInfo, entityId: string, linkToEntityId: Option<string>)
      returns (r: Result<Option<string>, Exn>)
      modifies context
      ensures StringExtension.IsNullOrWhiteSpace(linkToEntityId) ==> r == Success(Some("")) && context.calls == old(context.calls)
      ensures old(context.calls) <= context.calls && |context.calls| <= |old(context.calls)| + 2
      ensures !StringExtension.IsNullOrWhiteSpace(linkToEntityId) && other == entity ==>
        r == Failure(DuplicateKey(other)) && context.calls == old(context.calls)
      ensures !StringExtension.IsNullOrWhiteSpace(linkToEntityId) && other != entity ==>
        var readCall := ReadLinksCall(linkType, Some(LinksBetweenQuery(linkType, other, entityId, Some([linkToEntityId.value]))));
        var read := old(LinksRead(linkType, LinksBetweenQuery(linkType, other, entityId, Some([linkToEntityId.value]))));
        old(context.calls) + [readCall] <= context.calls &&
        (read.Failure? ==> r == Failure(read.error)) &&
        (read.Success? && ExistLinkEntity(FirstOrNull(read.value)) == Success(true) ==>
           context.calls == old(context.calls) + [readCall] &&
           r == (match GetId(FirstOrNull(read.value)) case Failure(f) => Failure(FaultExn(f)) case Success(i) => Success(i))) &&
        (read.Success? && ExistLinkEntity(FirstOrNull(read.value)) == Success(false) ==>
           context.calls == old(context.calls) + [readCall,
             LinkRecordCall(linkType, context.auditInfo, Some(LinkObject(entity, other, entityId, linkToEntityId.value)), Some(EmptyObject))] &&
           r == context.HandledAt(|old(context.calls)| + 1,
             LinkRecordCall(linkType, context.auditInfo, Some(LinkObject(entity, other, entityId, linkToEntityId.value)), Some(EmptyObject))))
      ensures var step := LinkToAt(|old(context.calls)|, linkType, other, entityId, linkToEntityId);
        r == step.result && context.calls == old(context.calls) + step.made
    {
      ghost var n := |context.calls|;
      if StringExtension.IsNullOrWhiteSpace(linkToEntityId) {
        return Success(Some(""));
      }
      if other == entity {
        return Failure(DuplicateKey(other));
      }
      ghost var read;
      r, read := LinkBetween(linkType, other, entityId, linkToEntityId.value);
      LinkToCases(n, linkType, other, entityId, linkToEntityId);
    }

    /** `LinkTo` for a non-blank id of another entity type: the link between
        the two ids is read, then reused or created. */
    method LinkBetween(linkType: TypeInfo, other: TypeInfo, entityId: string, id: string)
      returns (r: Result<Option<string>, Exn>, ghost read: Result<seq<Option<Record>>, Exn>)
      requires other != entity
      modifies context
      ensures read == old(LinksRead(linkType, LinksBetweenQuery(linkType, other, entityId, Some([id]))))
      ensures
        var readCall := ReadLinksCall(linkType, Some(LinksBetweenQuery(linkType, other, entityId, Some([id]))));
        old(context.calls) + [readCall] <= context.calls && |context.calls| <= |old(context.calls)| + 2 &&
        (read.Failure? ==> r == Failure(read.error) && context.calls == old(context.calls) + [readCall]) &&
        (read.Success? && ExistLinkEntity(FirstOrNull(read.value)).Failure? ==>
           r == Failure(FaultExn(ExistLinkEntity(FirstOrNull(read.value)).error)) && context.calls == old(context.calls) + [readCall]) &&
        (read.Success? && ExistLinkEntity(FirstOrNull(read.value)) == Success(true) ==>
           context.calls == old(context.calls) + [readCall] &&
           r == (match GetId(FirstOrNull(read.value)) case Failure(f) => Failure(FaultExn(f)) case Success(i) => Success(i))) &&
        (read.Success? && ExistLinkEntity(FirstOrNull(read.value)) == Success(false) ==>
           context.calls == old(context.calls) + [readCall,
             LinkRecordCall(linkType, context.auditInfo, Some(LinkObject(entity, other, entityId, id)), Some(EmptyObject))] &&
           r == context.HandledAt(|old(context.calls)| + 1,
             LinkRecordCall(linkType, context.auditInfo, Some(LinkObject(entity, other, entityId, id)), Some(EmptyObject))))
    {
      var links := context.ReadLinks(linkType, Some(LinksBetweenQuery(linkType, other, entityId, Some([id]))));
      read := links;
      if links.Failure? {
        return Failure(links.error), read;
      }
      r := ReuseOrLink(linkType, other, entityId, id, FirstOrNull(links.value));
    }

    /** The end of `LinkTo` once the link between the two ids has been read:
        an existing link gives its id, otherwise a new link is created. */
    method ReuseOrLink(linkType: TypeInfo, other: TypeInfo, entityId: string, linkToEntityId: string, link: Option<Record>)
      returns (r: Result<Option<string>, Exn>)
      modifies context
      ensures ExistLinkEntity(link).Failure? ==>
        r == Failure(FaultExn(ExistLinkEntity(link).error)) && context.calls == old(context.calls)
      ensures ExistLinkEntity(link) == Success(true) ==> (context.calls == old(context.calls) &&
        r == (match GetId(link) case Failure(f) => Failure(FaultExn(f)) case Success(i) => Success(i)))
      ensures ExistLinkEntity(link) == Success(false) ==>
        context.calls == old(context.calls) +
          [LinkRecordCall(linkType, context.auditInfo, Some(LinkObject(entity, other, entityId, linkToEntityId)), Some(EmptyObject))] &&
        r == context.HandledAt(|old(context.calls)|,
          LinkRecordCall(linkType, context.auditInfo, Some(LinkObject(entity, other, entityId, linkToEntityId)), Some(EmptyObject)))
    {
      var exist := ExistLinkEntity(link);
      if exist.Failure? {
        return Failure(FaultExn(exist.error));
      }
      if exist.value {
        var linkId := GetId(link);
        if linkId.Failure? {
          return Failure(FaultExn(linkId.error));
        }
        return Success(linkId.value);
      }
      r := context.LinkRecord(linkType, Some(LinkObject(entity, other, entityId, linkToEntityId)), Some(EmptyObject));
    }

    /** Linking a list makes at most two calls per id and gives one result
        per id, blank ids giving empty text; with the entity's own type on
        the other end only blank ids can succeed. */
    lemma LinkToIdsFacts(n: nat, linkType: TypeInfo, other: TypeInfo, entityId: string, ids: seq<string>)
      ensures var steps := Steps(n, LinkStepOf(linkType, other, entityId), ids);
        |steps.made| <= 2 * |ids| &&
        (steps.result.Success? ==>
          |steps.result.value| == |ids| &&
          (forall i :: 0 <= i < |ids| && Blank(ids[i]) ==> steps.result.value[i] == Some("")) &&
          (other == entity ==> forall i :: 0 <= i < |ids| ==> Blank(ids[i])))
    {
      var step := LinkStepOf(linkType, other, entityId);
      forall m: nat, id: string ensures |step(m, id).made| <= 2 {
        assert step(m, id) == LinkToAt(m, linkType, other, entityId, Some(id));
        LinkToAtBounded(m, linkType, other, entityId, Some(id));
      }
      StepsBounded(n, step, ids);
      var steps := Steps(n, step, ids);
      if steps.result.Success? {
        StepsElements(n, step, ids);
        forall i | 0 <= i < |ids|
          ensures Blank(ids[i]) ==> steps.result.value[i] == Some("")
          ensures other == entity ==> Blank(ids[i])
        {
          assert LinkedAfter(n, step, ids[..i], ids[i], steps.result.value[i]);
        }
      }
    }

    /** `LinkTo<TLink, TLinkTo>(entityId, linkToEntityIds)`: one result per id,
        in order; an id that throws stops the loop and the links made before
        it stay. */
    method LinkToIds(linkType: TypeInfo, other: TypeInfo, entityId: string, linkToEntityIds: Option<seq<string>>)
      returns (r: Result<seq<Option<string>>, Exn>)
      modifies context
      ensures EnumerableExtension.IsNullOrEmpty(linkToEntityIds) ==> r == Success([]) && context.calls == old(context.calls)
      ensures old(context.calls) <= context.calls
      ensures r.Success? && linkToEntityIds.Some? ==>
        |r.value| == |linkToEntityIds.value| &&
        forall i :: 0 <= i < |r.value| && Blank(linkToEntityIds.value[i]) ==> r.value[i] == Some("")
      ensures r.Success? && linkToEntityIds.Some? && linkToEntityIds.value != [] && other == entity ==>
        forall i :: 0 <= i < |r.value| ==> Blank(linkToEntityIds.value[i])
      ensures |context.calls| <= |old(context.calls)| + 2 * (if linkToEntityIds.Some? then |linkToEntityIds.value| else 0)
      ensures linkToEntityIds.Some? ==>
        var steps := Steps(|old(context.calls)|, LinkStepOf(linkType, other, entityId), linkToEntityIds.value);
        r == steps.result && context.calls == old(context.calls) + steps.made
    {
      if EnumerableExtension.IsNullOrEmpty(linkToEntityIds) {
        return Success([]);
      }
      LinkToIdsFacts(|context.calls|, linkType, other, entityId, linkToEntityIds.value);
      LinkStepOfIsLinkTo(linkType, other, entityId);
      r := LinkEach(LinkStepOf(linkType, other, entityId), linkType, other, entityId, linkToEntityIds.value);
    }

    /** `step` is `LinkTo` of one id, given the number of calls made. */
    ghost predicate IsLinkToStep(step: (nat, string) -> LinkStep, linkType: TypeInfo, other: TypeInfo, entityId: string) {
      forall m: nat, id: string {:trigger LinkToAt(m, linkType, other, entityId, Some(id))} ::
        step(m, id) == LinkToAt(m, linkType, other, entityId, Some(id))
    }

    /** The loop over ids: each is linked in turn; an id that throws stops
        the loop and the links made before it stay. */
    method LinkEach(ghost step: (nat, string) -> LinkStep, linkType: TypeInfo, other: TypeInfo, entityId: string, ids: seq<string>)
      returns (r: Result<seq<Option<string>>, Exn>)
      requires IsLinkToStep(step, linkType, other, entityId)
      modifies context
      ensures var steps := Steps(|old(context.calls)|, step, ids);
        r == steps.result && context.calls == old(context.calls) + steps.made
    {
      ghost var n := |context.calls|;
      ghost var start := context.calls;
      var newLinkIds: seq<Option<string>> := [];
      ghost var made: seq<ProcCall> := [];
      for i := 0 to |ids|
        invariant Steps(n, step, ids[..i]) == LinkSteps(Success(newLinkIds), made)
        invariant context.calls == start + made
      {
        var newLinkId;
        newLinkId, made := LinkNext(step, linkType, other, entityId, n, ids, i, newLinkIds, start, made);
        if newLinkId.Failure? {
          StepsFailurePersists(n, step, ids, i + 1);
          return Failure(newLinkId.error);
        }
        newLinkIds := newLinkIds + [newLinkId.value];
      }
      assert ids[..|ids|] == ids;
      r := Success(newLinkIds);
    }

    /** The body of the loop over ids: `LinkTo` of the `i`th id extends the
        loop's result and calls by that id's. */
    method LinkNext(ghost step: (nat, string) -> LinkStep, linkType: TypeInfo, other: TypeInfo, entityId: string,
                    ghost n: nat, ids: seq<string>, i: nat, before: seq<Option<string>>,
                    ghost start: seq<ProcCall>, ghost made: seq<ProcCall>)
      returns (r: Result<Option<string>, Exn>, ghost made': seq<ProcCall>)
      requires IsLinkToStep(step, linkType, other, entityId)
      requires i < |ids| && Steps(n, step, ids[..i]) == LinkSteps(Success(before), made)
      requires context.calls == start + made && |start| == n
      modifies context
      ensures context.calls == start + made'
      ensures r.Failure? ==> Steps(n, step, ids[..i + 1]) == LinkSteps(Failure(r.error), made')
      ensures r.Success? ==> Steps(n, step, ids[..i + 1]) == LinkSteps(Success(before + [r.value]), made')
    {
      StepsSnoc(n, step, ids, i, before, made);
      r := LinkToOne(step, linkType, other, entityId, ids[i]);
      made' := made + step(n + |made|, ids[i]).made;
      CallsAssoc(start, made, step(n + |made|, ids[i]).made);
    }

    /** One step of the loop over ids: `LinkTo` of the id. */
    method LinkToOne(ghost step: (nat, string) -> LinkStep, linkType: TypeInfo, other: TypeInfo, entityId: string, id: string)
      returns (r: Result<Option<string>, Exn>)
      requires IsLinkToStep(step, linkType, other, entityId)
      modifies context
      ensures r == step(|old(context.calls)|, id).result
      ensures context.calls == old(context.calls) + step(|old(context.calls)|, id).made
    {
      r := LinkTo(linkType, other, entityId, Some(id));
    }

    /** `LinkStepOf` is `LinkTo` of one id. */
    lemma LinkStepOfIsLinkTo(linkType: TypeInfo, other: TypeInfo, entityId: string)
      ensures IsLinkToStep(LinkStepOf(linkType, other, entityId), linkType, other, entityId)
    {
    }

    /** `LinkTo<TLink, TLinkTo>(entityId, linkToEntities)`: the ids of the
        entities (nulls dropped), then linked as above. */
    method LinkToEntities(linkType: TypeInfo, other: TypeInfo, entityId: string, linkToEntities: Option<seq<Option<Record>>>)
      returns (r: Result<seq<Option<string>>, Exn>)
      modifies context
      ensures old(context.calls) <= context.calls
      ensures linkToEntities.Some? && KeysOf(linkToEntities.value, IdKey).Failure? ==>
        r == Failure(KeysOf(linkToEntities.value, IdKey).error) && context.calls == old(context.calls)
      ensures r.Success? && linkToEntities.Some? ==> (KeysOf(linkToEntities.value, IdKey).Success? &&
        |r.value| == |KeysOf(linkToEntities.value, IdKey).value|)
      ensures linkToEntities.None? ==> r == Success([]) && context.calls == old(context.calls)
      ensures linkToEntities.Some? && KeysOf(linkToEntities.value, IdKey).Success? ==>
        var steps := Steps(|old(context.calls)|, LinkStepOf(linkType, other, entityId), KeysOf(linkToEntities.value, IdKey).value);
        r == steps.result && context.calls == old(context.calls) + steps.made
    {
      var ids: seq<string> := [];
      if linkToEntities.Some? {
        var keys := KeysOf(linkToEntities.value, IdKey);
        if keys.Failure? {
          return Failure(keys.error);
        }
        ids := keys.value;
      }
      r := LinkToIds(linkType, other, entityId, Some(ids));
    }

    /** The loop over `links` of `UnLinkTo` and `UnLinkAll`, with `n` calls
        made: each link's id is read and `UnLinkRecord` sent with it, in
        order; an id that cannot be read, or the first failing call, stops
        the loop with its error. */
    function UnLinkAt(n: nat, linkType: TypeInfo, links: seq<Option<Record>>): (u: Outcome)
      decreases |links|
    {
      if links == [] then Outcome(None, [])
      else
        var before := UnLinkAt(n, linkType, links[..|links| - 1]);
        if before.result.Some? then before
        else
          match GetId(links[|links| - 1])
          case Failure(f) => Outcome(Some(FaultExn(f)), before.made)
          case Success(id) =>
            var call := UnLinkRecordCall(linkType, context.auditInfo, id);
            Outcome(context.ExecutedAt(n + |before.made|, call), before.made + [call])
    }

    /** Every link's id can be read, and the `UnLinkRecord` of the `i`th
        link, made as call `n + i`, raises nothing. */
    predicate RemovedAll(n: nat, linkType: TypeInfo, links: seq<Option<Record>>) {
      LinkIds(links).Success? &&
      forall i :: 0 <= i < |links| ==>
        context.ExecutedAt(n + i, UnLinkRecordCall(linkType, context.auditInfo, LinkIds(links).value[i])).None?
    }

    /** The loop reports no error exactly when every link was removed, and
        then it has sent exactly one `UnLinkRecord` per link, in order. */
    lemma {:induction false} UnLinkAtExactly(n: nat, linkType: TypeInfo, links: seq<Option<Record>>)
      ensures UnLinkAt(n, linkType, links).result.None? <==> RemovedAll(n, linkType, links)
      ensures UnLinkAt(n, linkType, links).result.None? ==>
        UnLinkAt(n, linkType, links).made == UnLinkCalls(linkType, context.auditInfo, LinkIds(links).value)
      decreases |links|
    {
      if links != [] {
        var init := links[..|links| - 1];
        UnLinkAtExactly(n, linkType, init);
        UnLinkAtStep(n, linkType, links);
      }
    }

    /** All of `links` were removed exactly when all but the last were and
        the last one's call, made after theirs, raised nothing. */
    lemma RemovedAllSnoc(n: nat, linkType: TypeInfo, links: seq<Option<Record>>)
      requires links != [] && LinkIds(links).Success?
      ensures var init := links[..|links| - 1];
        var last := GetId(links[|links| - 1]);
        LinkIds(init).Success? && last.Success? &&
        LinkIds(links).value == LinkIds(init).value + [last.value] &&
        (RemovedAll(n, linkType, links) <==>
          RemovedAll(n, linkType, init) &&
          context.ExecutedAt(n + |init|, UnLinkRecordCall(linkType, context.auditInfo, last.value)).None?)
    {
      var init := links[..|links| - 1];
      var ids := LinkIds(links).value;
      var initIds := LinkIds(init).value;
      assert ids == initIds + [GetId(links[|links| - 1]).value];
      if RemovedAll(n, linkType, links) {
        forall i | 0 <= i < |init|
          ensures context.ExecutedAt(n + i, UnLinkRecordCall(linkType, context.auditInfo, initIds[i])).None?
        {
          assert ids[i] == initIds[i];
        }
        assert ids[|init|] == GetId(links[|links| - 1]).value;
      }
      if RemovedAll(n, linkType, init) &&
         context.ExecutedAt(n + |init|, UnLinkRecordCall(linkType, context.auditInfo, GetId(links[|links| - 1]).value)).None? {
        forall i | 0 <= i < |links|
          ensures context.ExecutedAt(n + i, UnLinkRecordCall(linkType, context.auditInfo, ids[i])).None?
        {
          if i < |init| {
            assert ids[i] == initIds[i];
          }
        }
      }
    }

    /** The step of `UnLinkAtExactly`: one more link is removed exactly when
        the ones before it were and its own id is read and its call raises
        nothing. */
    lemma UnLinkAtStep(n: nat, linkType: TypeInfo, links: seq<Option<Record>>)
      requires links != []
      requires var init := links[..|links| - 1];
        (UnLinkAt(n, linkType, init).result.None? <==> RemovedAll(n, linkType, init)) &&
        (UnLinkAt(n, linkType, init).result.None? ==>
          UnLinkAt(n, linkType, init).made == UnLinkCalls(linkType, context.auditInfo, LinkIds(init).value))
      ensures UnLinkAt(n, linkType, links).result.None? <==> RemovedAll(n, linkType, links)
      ensures UnLinkAt(n, linkType, links).result.None? ==>
        UnLinkAt(n, linkType, links).made == UnLinkCalls(linkType, context.auditInfo, LinkIds(links).value)
    {
      var init := links[..|links| - 1];
      var before := UnLinkAt(n, linkType, init);
      if LinkIds(links).Success? {
        RemovedAllSnoc(n, linkType, links);
        var call := UnLinkRecordCall(linkType, context.auditInfo, GetId(links[|links| - 1]).value);
        if before.result.None? {
          assert |before.made| == |init|;
          assert UnLinkCalls(linkType, context.auditInfo, LinkIds(links).value)
              == UnLinkCalls(linkType, context.auditInfo, LinkIds(init).value) + [call];
        }
      }
    }

    /** Once the loop fails on a prefix of the links, that failure is its outcome. */
    lemma {:induction false} UnLinkAtFailurePersists(n: nat, linkType: TypeInfo, links: seq<Option<Record>>, k: nat)
      requires k <= |links|
      requires UnLinkAt(n, linkType, links[..k]).result.Some?
      ensures UnLinkAt(n, linkType, links) == UnLinkAt(n, linkType, links[..k])
      decreases |links|
    {
      if k < |links| {
        var init := links[..|links| - 1];
        assert init[..k] == links[..k];
        UnLinkAtFailurePersists(n, linkType, init, k);
      } else {
        assert links[..k] == links;
      }
    }

    /** The links read with query `q` as the `n`-th call, then each removed:
        a failed read is the error. */
    function UnLinkReadAt(n: nat, linkType: TypeInfo, q: Json): Outcome {
      match LinksReadAt(n, linkType, q)
      case Failure(e) => Outcome(Some(e), [ReadLinksCall(linkType, Some(q))])
      case Success(links) =>
        var rest := UnLinkAt(n + 1, linkType, links);
        Outcome(rest.result, [ReadLinksCall(linkType, Some(q))] + rest.made)
    }

    /** `UnLinkReadAt` once the read has given `links`. */
    lemma UnLinkReadAtOf(n: nat, linkType: TypeInfo, q: Json, links: Result<seq<Option<Record>>, Exn>)
      requires links == LinksReadAt(n, linkType, q)
      ensures links.Failure? ==> UnLinkReadAt(n, linkType, q) == Outcome(Some(links.error), [ReadLinksCall(linkType, Some(q))])
      ensures links.Success? ==>
        UnLinkReadAt(n, linkType, q) == Outcome(UnLinkAt(n + 1, linkType, links.value).result, [ReadLinksCall(linkType, Some(q))] + UnLinkAt(n + 1, linkType, links.value).made)
    {
    }

    /** `UnLinkTo<TLink, TUnLinkTo>(entityId, unlinkToEntityIds)` with `n` calls made. */
    function UnLinkToAt(n: nat, linkType: TypeInfo, other: TypeInfo, entityId: string, ids: Option<seq<string>>): Outcome {
      if EnumerableExtension.IsNullOrEmpty(ids) then Outcome(None, [])
      else if other == entity then Outcome(Some(DuplicateKey(other)), [])
      else UnLinkReadAt(n, linkType, LinksBetweenQuery(linkType, other, entityId, ids))
    }

    /** `UnLinkAll<TLink>(entityId)` with `n` calls made. */
    function UnLinkAllAt(n: nat, linkType: TypeInfo, entityId: string): Outcome {
      UnLinkReadAt(n, linkType, LinksQuery(linkType, Some([entityId]), true))
    }

    /** Unlinking by ids: no ids remove nothing and read nothing; the
        entity's own type on the other end throws before any call;
        otherwise the links between the entity and the ids are read, a
        failed read is the error, and the unlink reports no error exactly
        when every link read was removed, with one `UnLinkRecord` per link
        after the read. */
    lemma UnLinkToCases(n: nat, linkType: TypeInfo, other: TypeInfo, entityId: string, ids: Option<seq<string>>)
      ensures EnumerableExtension.IsNullOrEmpty(ids) ==> UnLinkToAt(n, linkType, other, entityId, ids) == Outcome(None, [])
      ensures !EnumerableExtension.IsNullOrEmpty(ids) && other == entity ==>
        UnLinkToAt(n, linkType, other, entityId, ids) == Outcome(Some(DuplicateKey(other)), [])
      ensures !EnumerableExtension.IsNullOrEmpty(ids) && other != entity ==>
        var q := LinksBetweenQuery(linkType, other, entityId, ids);
        var read := LinksReadAt(n, linkType, q);
        var out := UnLinkToAt(n, linkType, other, entityId, ids);
        (read.Failure? ==> out == Outcome(Some(read.error), [ReadLinksCall(linkType, Some(q))])) &&
        (read.Success? ==> (out.result.None? <==> RemovedAll(n + 1, linkType, read.value))) &&
        (read.Success? && out.result.None? ==>
          out.made == [ReadLinksCall(linkType, Some(q))] + UnLinkCalls(linkType, context.auditInfo, LinkIds(read.value).value))
    {
      if !EnumerableExtension.IsNullOrEmpty(ids) && other != entity {
        var read := LinksReadAt(n, linkType, LinksBetweenQuery(linkType, other, entityId, ids));
        if read.Success? {
          UnLinkAtExactly(n + 1, linkType, read.value);
        }
      }
    }

    /** Unlinking all: the links holding the id are read, a failed read is
        the error, and the unlink reports no error exactly when every link
        read was removed, with one `UnLinkRecord` per link after the read. */
    lemma UnLinkAllCases(n: nat, linkType: TypeInfo, entityId: string)
      ensures var q := LinksQuery(linkType, Some([entityId]), true);
        var read := LinksReadAt(n, linkType, q);
        var out := UnLinkAllAt(n, linkType, entityId);
        (read.Failure? ==> out == Outcome(Some(read.error), [ReadLinksCall(linkType, Some(q))])) &&
        (read.Success? ==> (out.result.None? <==> RemovedAll(n + 1, linkType, read.value))) &&
        (read.Success? && out.result.None? ==>
          out.made == [ReadLinksCall(linkType, Some(q))] + UnLinkCalls(linkType, context.auditInfo, LinkIds(read.value).value))
    {
      var read := LinksReadAt(n, linkType, LinksQuery(linkType, Some([entityId]), true));
      if read.Success? {
        UnLinkAtExactly(n + 1, linkType, read.value);
      }
    }

    /** Each link's id is read and the link removed, in order; the first
        failure stops the loop. */
    method UnLinkEach(linkType: TypeInfo, links: seq<Option<Record>>) returns (r: Option<Exn>)
      modifies context
      ensures var out := UnLinkAt(|old(context.calls)|, linkType, links);
        r == out.result && context.calls == old(context.calls) + out.made
    {
      ghost var n := |context.calls|;
      ghost var start := context.calls;
      ghost var made: seq<ProcCall> := [];
      for i := 0 to |links|
        invariant UnLinkAt(n, linkType, links[..i]) == Outcome(None, made)
        invariant context.calls == start + made
      {
        var e;
        e, made := UnLinkNext(n, linkType, links, i, start, made);
        if e.Some? {
          UnLinkAtFailurePersists(n, linkType, links, i + 1);
          return e;
        }
      }
      assert links[..|links|] == links;
      r := None;
    }

    /** The body of the loop over links: the `i`th link's id is read and the
        link removed, extending the loop's outcome by that link's. */
    method UnLinkNext(ghost n: nat, linkType: TypeInfo, links: seq<Option<Record>>, i: nat,
                      ghost start: seq<ProcCall>, ghost made: seq<ProcCall>)
      returns (e: Option<Exn>, ghost made': seq<ProcCall>)
      requires i < |links| && UnLinkAt(n, linkType, links[..i]) == Outcome(None, made)
      requires context.calls == start + made && |start| == n
      modifies context
      ensures UnLinkAt(n, linkType, links[..i + 1]) == Outcome(e, made')
      ensures context.calls == start + made'
    {
      assert links[..i + 1][..i] == links[..i];
      var id := GetId(links[i]);
      if id.Failure? {
        return Some(FaultExn(id.error)), made;
      }
      e := context.UnLinkRecord(linkType, id.value);
      made' := made + [UnLinkRecordCall(linkType, context.auditInfo, id.value)];
    }

    /** The links read with query `q` (`GetLinks`), then each removed. */
    method UnLinkRead(linkType: TypeInfo, q: Json) returns (r: Option<Exn>)
      modifies context
      ensures var out := UnLinkReadAt(|old(context.calls)|, linkType, q);
        r == out.result && context.calls == old(context.calls) + out.made
    {
      ghost var n := |context.calls|;
      ghost var start := context.calls;
      var links := context.ReadLinks(linkType, Some(q));
      UnLinkReadAtOf(n, linkType, q, links);
      if links.Failure? {
        return Some(links.error);
      }
      ghost var inner := UnLinkAt(n + 1, linkType, links.value);
      ghost var mid := context.calls;
      assert mid == start + [ReadLinksCall(linkType, Some(q))] && |mid| == n + 1;
      r := UnLinkEach(linkType, links.value);
      assert r == inner.result && context.calls == mid + inner.made;
      CallsAssoc(start, [ReadLinksCall(linkType, Some(q))], inner.made);
    }

    /** `UnLinkTo<TLink, TUnLinkTo>(entityId, unlinkToEntityIds)`: every link
        between the entity and one of the ids is removed; with no ids nothing
        is read. */
    method UnLinkTo(linkType: TypeInfo, other: TypeInfo, entityId: string, unlinkToEntityIds: Option<seq<string>>)
      returns (r: Option<Exn>)
      modifies context
      ensures var out := UnLinkToAt(|old(context.calls)|, linkType, other, entityId, unlinkToEntityIds);
        r == out.result && context.calls == old(context.calls) + out.made
    {
      if EnumerableExtension.IsNullOrEmpty(unlinkToEntityIds) {
        return None;
      }
      if other == entity {
        return Some(DuplicateKey(other));
      }
      r := UnLinkRead(linkType, LinksBetweenQuery(linkType, other, entityId, unlinkToEntityIds));
    }

    /** `UnLinkTo<TLink, TUnLinkTo>(entityId, unlinkToEntities)`: by the
        entities' ids (nulls dropped); an id that cannot be read throws
        before any call. */
    method UnLinkToEntities(linkType: TypeInfo, other: TypeInfo, entityId: string, unlinkToEntities: Option<seq<Option<Record>>>)
      returns (r: Option<Exn>)
      modifies context
      ensures unlinkToEntities.Some? && KeysOf(unlinkToEntities.value, IdKey).Failure? ==>
        r == Some(KeysOf(unlinkToEntities.value, IdKey).error) && context.calls == old(context.calls)
      ensures unlinkToEntities.None? ==> r.None? && context.calls == old(context.calls)
      ensures unlinkToEntities.Some? && KeysOf(unlinkToEntities.value, IdKey).Success? ==>
        var out := UnLinkToAt(|old(context.calls)|, linkType, other, entityId, Some(KeysOf(unlinkToEntities.value, IdKey).value));
        r == out.result && context.calls == old(context.calls) + out.made
    {
      var ids: seq<string> := [];
      if unlinkToEntities.Some? {
        var keys := KeysOf(unlinkToEntities.value, IdKey);
        if keys.Failure? {
          return Some(keys.error);
        }
        ids := keys.value;
      }
      r := UnLinkTo(linkType, other, entityId, Some(ids));
    }

    /** `UnLinkAll<TLink>(entityId)`: every link holding the id is removed. */
    method UnLinkAll(linkType: TypeInfo, entityId: string) returns (r: Option<Exn>)
      modifies context
      ensures var out := UnLinkAllAt(|old(context.calls)|, linkType, entityId);
        r == out.result && context.calls == old(context.calls) + out.made
    {
      r := UnLinkRead(linkType, LinksQuery(linkType, Some([entityId]), true));
    }
  }

  /** Once the ids of a prefix cannot be read, neither can those of the whole. */
  lemma {:induction false} LinkIdsFailurePersists(links: seq<Option<Record>>, n: int)
    requires 0 <= n <= |links| && LinkIds(links[..n]).Failure?
    ensures LinkIds(links).Failure?
    decreases |links| - n
  {
    if n < |links| {
      assert links[..n + 1][..n] == links[..n];
      LinkIdsFailurePersists(links, n + 1);
    } else {
      assert links[..n] == links;
    }
  }
}
