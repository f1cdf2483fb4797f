/** `DataVaultContext`: every hub, link, view and lookup operation is one
    stored-procedure call in the data-vault convention, named after the
    operation and the entity.

    The procedures themselves live in the database and are not part of this
    model.  What the database answers is a parameter: `database(n, call)` is
    the outcome of running `call` as the `n`-th call the context makes (a
    driver error, or the values the driver wrote to the output parameters),
    so the data may change from one call to the next.  Every call the context
    makes is appended to `calls`.  The deserialisation of a JSON result into
    entities or lookup items is given by the `decode…` parameters. */
module DataVaultContexts {
  import opened Wrappers
  import opened Text
  import opened Exceptions
  import opened Json
  import opened StringFormat
  import opened EntityHelper
  import opened EntityExtensions
  import opened Values
  import opened DataCommandExtensions
  import opened DataVaultCommands
  import opened DistributedCaches
  import EnumerableExtension
  import StringExtension
  import DataSessions
  import DataCommands
  import DataContexts

  /** `LookupItem`: a code and its display name. */
  datatype LookupItem = LookupItem(code: Option<string>, name: Option<string>)

  /** One stored-procedure call: its name and every parameter it carries. */
  datatype ProcCall = ProcCall(name: string, parameters: seq<DbParameter>)

  /** `nameof(Operation) + GetEntityName<TEntity>()` */
  function ProcedureName(operation: string, t: TypeInfo): (r: string)
    ensures |r| == |operation| + |GetEntityName(t)|
  {
    operation + GetEntityName(t)
  }

  /** The entity name can be read back from the procedure name of a known operation. */
  lemma ProcedureNameNamesEntity(operation: string, t: TypeInfo, u: TypeInfo)
    ensures ProcedureName(operation, t)[..|operation|] == operation
    ensures ProcedureName(operation, t)[|operation|..] == GetEntityName(t)
    ensures ProcedureName(operation, t) == ProcedureName(operation, u) ==> GetEntityName(t) == GetEntityName(u)
  {
    assert ProcedureName(operation, t)[|operation|..] == GetEntityName(t);
    assert ProcedureName(operation, u)[|operation|..] == GetEntityName(u);
  }

  /** A call of `ReadOnlyStoredProcedure`: the two outputs, then the inputs. */
  function ReadOnlyCall(name: string, inputs: seq<DbParameter>): ProcCall {
    ProcCall(name, ReadOnlyParameters + inputs)
  }

  /** A call of `UpdateStoredProcedure`: the two outputs, the audit information, then the inputs. */
  function UpdateCall(name: string, auditInfo: Option<Json>, inputs: seq<DbParameter>): ProcCall {
    ProcCall(name, ReadOnlyParameters + [StringParameter(MdParam, ToJsonString(auditInfo))] + inputs)
  }

  /** Every update call carries the audit information right after the two
      outputs; a read-only call carries no audit information at all. */
  lemma AuditOnlyOnUpdates(name: string, auditInfo: Option<Json>, inputs: seq<DbParameter>)
    requires forall i :: 0 <= i < |inputs| ==> inputs[i].name != MdParam
    ensures UpdateCall(name, auditInfo, inputs).parameters[2] == StringParameter(MdParam, ToJsonString(auditInfo))
    ensures forall i :: 0 <= i < |ReadOnlyCall(name, inputs).parameters| ==> ReadOnlyCall(name, inputs).parameters[i].name != MdParam
  {
    var ps := ReadOnlyCall(name, inputs).parameters;
    forall i | 0 <= i < |ps| ensures ps[i].name != MdParam {
      if i >= 2 {
        assert ps[i] == inputs[i - 2];
      }
    }
  }

  /** `new[] { "*" }`: every satellite column. */
  const AllColumns := JArr([JStr("*")])

  /** `new { }` */
  const EmptyObject := JObj([])

  /** The satellite selection of the repositories: every column or none. */
  function SatSelection(includeDetails: bool): (r: Json)
    ensures includeDetails ==> r == AllColumns
    ensures !includeDetails ==> r == JArr([])
  {
    if includeDetails then AllColumns else JArr([])
  }

  /** The cache key of a lookup table. */
  function LookupCacheKey(lookupTableName: string): string {
    "Lookup:" + lookupTableName
  }

  /** Lookup lists are cached for 60 minutes from the time they are read. */
  const LookupEntryOptions := EntryOptions(Some(60), None)

  // ---- the calls of each operation ----

  function ReadRecordCall(t: TypeInfo, hubData: Option<Json>, satData: Option<Json>): ProcCall {
    ReadOnlyCall(ProcedureName("ReadRecord", t),
      [StringParameter(HubDataParam, ToJsonString(hubData)),
       StringParameter(SatDataParam, ToJsonString(Some(satData.GetOr(AllColumns))))])
  }

  function CreateRecordCall(t: TypeInfo, auditInfo: Option<Json>, hubData: Option<Json>, satData: Option<Json>): ProcCall {
    UpdateCall(ProcedureName("CreateRecord", t), auditInfo,
      [StringParameter(HubDataParam, ToJsonString(Some(hubData.GetOr(EmptyObject)))),
       StringParameter(SatDataParam, ToJsonString(satData))])
  }

  function LinkRecordCall(t: TypeInfo, auditInfo: Option<Json>, foreignKeys: Option<Json>, satData: Option<Json>): ProcCall {
    UpdateCall(ProcedureName("LinkRecord", t), auditInfo,
      [StringParameter(FkParam, ToJsonString(Some(foreignKeys.GetOr(EmptyObject)))),
       StringParameter(SatDataParam, ToJsonString(satData))])
  }

  function UpdateRecordCall(t: TypeInfo, auditInfo: Option<Json>, hubPk: Option<string>, satData: Option<Json>): ProcCall {
    UpdateCall(ProcedureName("UpdateRecord", t), auditInfo,
      [StringParameter(HubPkParam, hubPk), StringParameter(SatDataParam, ToJsonString(satData))])
  }

  function UpdateLinkCall(t: TypeInfo, auditInfo: Option<Json>, linkPk: Option<string>, satData: Option<Json>): ProcCall {
    UpdateCall(ProcedureName("UpdateLink", t), auditInfo,
      [StringParameter(LinkPkParam, linkPk), StringParameter(SatDataParam, ToJsonString(satData))])
  }

  function DeleteRecordCall(t: TypeInfo, auditInfo: Option<Json>, hubPk: Option<string>): ProcCall {
    UpdateCall(ProcedureName("DeleteRecord", t), auditInfo, [StringParameter(HubPkParam, hubPk)])
  }

  function UnLinkRecordCall(t: TypeInfo, auditInfo: Option<Json>, linkPk: Option<string>): ProcCall {
    UpdateCall(ProcedureName("UnLinkRecord", t), auditInfo, [StringParameter(LinkPkParam, linkPk)])
  }

  function QueryCall(name: string, satQuery: Option<Json>): ProcCall {
    ReadOnlyCall(name, [StringParameter(SatQueryParam, ToJsonString(satQuery))])
  }

  function ReadRecordsCall(t: TypeInfo, satQuery: Option<Json>): ProcCall {
    QueryCall(ProcedureName("ReadRecords", t), satQuery)
  }

  function ReadLinksCall(t: TypeInfo, satQuery: Option<Json>): ProcCall {
    QueryCall(ProcedureName("ReadLinks", t), satQuery)
  }

  function ReadViewCall(viewName: string, satQuery: Option<Json>): ProcCall {
    QueryCall("ReadView" + viewName, satQuery)
  }

  const ReadLookupsCall := ReadOnlyCall("ReadLookups", [])

  /** The database read behind a lookup list: the normalised table name and an empty code. */
  function ReadLookupCall(lookupTableName: string): ProcCall {
    ReadOnlyCall("ReadLookup",
      [StringParameter("LOOKUP_TABLE", Some(NormalizeTableName(Some(lookupTableName)))),
       StringParameter("CODE", Some(""))])
  }

  /** `StoredProcedure("GetUniqueSequence").Parameter("SeqName", …).Return<string>(…)`:
      the sequence name, then the return parameter. */
  function SequenceCall(t: TypeInfo): ProcCall {
    ProcCall("GetUniqueSequence",
      [InputParameter("SeqName", OStr(GetEntityUniqueSequenceName(t)), TString), ReturnParameter(TString)])
  }

  /** The callback `Return<string>` queues: it reads the return parameter,
      the second of the call. */
  const SequenceCallback := DataCommands.DataCallback(0, DataCommands.DefaultOf(TString), 1)

  /** The callback of the sequence call reads the text the driver wrote as
      the return value; a value not written, or `DBNull`, reads as null. */
  lemma SequenceCallbackReadsReturnValue(t: TypeInfo, outputs: map<string, Obj>)
    ensures AsText(DataCommands.Invoke(SequenceCallback, DataCommands.WithOutputs(SequenceCall(t).parameters, outputs)))
         == OutputText(outputs, ReturnValueName)
  {
    var ps := DataCommands.WithOutputs(SequenceCall(t).parameters, outputs);
    assert SequenceCall(t).parameters[1] == ReturnParameter(TString);
    assert ps[1] == if ReturnValueName in outputs then ReturnParameter(TString).(value := outputs[ReturnValueName]) else ReturnParameter(TString);
  }

  /** False when no satellite property carries a value: `JObject.FromObject`
      of the satellite data, then `Any(value => !value.IsNullOrEmpty())`.  A
      null object or one that does not serialise to a JSON object throws. */
  function HasSatValues(satData: Option<Json>): (r: Result<bool, Exn>)
    ensures satData.None? ==> r.Failure? && r.error.kind == ArgumentNull
    ensures satData.Some? && !satData.value.JObj? ==> r.Failure? && r.error.kind == Argument
    ensures satData.Some? && satData.value.JObj? ==>
      r == Success(exists i :: 0 <= i < |satData.value.props| && !IsNullOrEmpty(Some(satData.value.props[i].1)))
  {
    if satData.None? then Failure(Raise(ArgumentNull, "Value cannot be null. (Parameter 'o')"))
    else if satData.value.JObj? then
      var props := satData.value.props;
      Success(exists i :: 0 <= i < |props| && !IsNullOrEmpty(Some(props[i].1)))
    else Failure(Raise(Argument, "Object serialized to another token type. JObject instance expected."))
  }

  /** `?? Array.Empty<TEntity>()` */
  function OrEmpty<T>(r: Result<Option<seq<T>>, Exn>): (e: Result<seq<T>, Exn>)
    ensures r.Failure? ==> e == Failure(r.error)
    ensures r.Success? && r.value.None? ==> e == Success([])
    ensures r.Success? && r.value.Some? ==> e == Success(r.value.value)
  {
    match r
    case Failure(err) => Failure(err)
    case Success(items) => Success(items.GetOr([]))
  }

  /** Some lookup item carries exactly this code. */
  predicate HasCode(items: seq<LookupItem>, value: string) {
    exists i :: 0 <= i < |items| && items[i].code == Some(value)
  }

  /** The string overload of `ValidateLookupValue` once the lookup list has
      been read: false for a blank value, otherwise whether some item has
      the value as its code; `Any` on a null list throws. */
  function ValidateItems(items: Result<Option<seq<LookupItem>>, Exn>, value: Option<string>): (r: Result<bool, Exn>)
    ensures items.Failure? ==> r == Failure(items.error)
    ensures items.Success? && StringExtension.IsNullOrWhiteSpace(value) ==> r == Success(false)
    ensures items.Success? && !StringExtension.IsNullOrWhiteSpace(value) && items.value.None? ==>
      r.Failure? && r.error.kind == ArgumentNull
  {
    match items
    case Failure(e) => Failure(e)
    case Success(list) =>
      if StringExtension.IsNullOrWhiteSpace(value) then Success(false)
      else if list.None? then Failure(Raise(ArgumentNull, "Value cannot be null. (Parameter 'source')"))
      else Success(HasCode(list.value, value.value))
  }

  /** A value is valid exactly when it is not blank and it is one of the codes read. */
  lemma ValidateItemsExactly(items: seq<LookupItem>, value: Option<string>)
    ensures ValidateItems(Success(Some(items)), value) == Success(true) <==>
      (value.Some? && !Blank(value.value) && exists i :: 0 <= i < |items| && items[i].code == value)
  {
  }

  /** The message of `InvalidLookupException`: the lookup type, the value and the codes expected. */
  function InvalidLookupMessage(lookupType: TypeInfo, value: Option<string>, items: Option<seq<LookupItem>>): string {
    "Invalid lookup value. Lookup type: " + Upper(ToUnderscoreCase(lookupType.name)) + ". Value: " + value.GetOr("")
    + ". Expected: " + EnumerableExtension.JoinNotEmpty(EnumerableExtension.ConvertArray(items, (x: LookupItem) => x.code), ", ") + "."
  }

  /** The command `ReadRecord` sends, built as the source builds it: its
      parameters are exactly those of `ReadRecordCall`. */
  method PrepareReadRecord(session: DataSessions.DataSession, t: TypeInfo, hubData: Option<Json>, satData: Option<Json>)
    returns (vc: DataVaultCommand)
    ensures fresh(vc) && fresh(vc.command) && vc.command.session == session && !vc.command.disposed
    ensures vc.command.commandType == DataCommands.CommandType.StoredProcedure
    ensures vc.command.commandText == ReadRecordCall(t, hubData, satData).name
    ensures vc.command.parameters == ReadRecordCall(t, hubData, satData).parameters
  {
    vc := ReadOnlyStoredProcedure(session, ProcedureName("ReadRecord", t));
    vc.WithHubData(hubData);
    vc.WithSatData(Some(satData.GetOr(AllColumns)));
  }

  /** The command `CreateRecord` sends, built as the source builds it: once
      the session transaction is open, its parameters are exactly those of
      `CreateRecordCall`. */
  method PrepareCreateRecord(session: DataSessions.DataSession, auditInfo: Option<Json>, t: TypeInfo,
                             hubData: Option<Json>, satData: Option<Json>,
                             open: Result<DataSessions.ConnectionState, Exn>, begin: Result<nat, Exn>)
    returns (r: Result<DataVaultCommand, Exn>)
    requires session.Valid()
    modifies session
    ensures session.Valid()
    ensures r.Success? ==>
      fresh(r.value) && fresh(r.value.command) && r.value.command.session == session && !r.value.command.disposed &&
      session.transaction.Some? && r.value.command.transaction == session.transaction &&
      r.value.command.commandText == CreateRecordCall(t, auditInfo, hubData, satData).name &&
      r.value.command.parameters == CreateRecordCall(t, auditInfo, hubData, satData).parameters
  {
    r := UpdateStoredProcedure(session, auditInfo, ProcedureName("CreateRecord", t), open, begin);
    if r.Failure? {
      return;
    }
    r.value.WithHubData(Some(hubData.GetOr(EmptyObject)));
    r.value.WithSatData(satData);
  }

  /** What the database answers to `call` run as the `n`-th call: a driver
      error, or the status and JSON text the output callbacks read from what
      the driver wrote (see `ResultOfOutputs`). */
  function AnswerOf(database: (nat, ProcCall) -> Result<map<string, Obj>, Exn>, n: nat, call: ProcCall): Result<VaultResult, Exn> {
    match database(n, call)
    case Failure(e) => Failure(e)
    case Success(outputs) =>
      Success(VaultResult(DecodeStatus(OutputText(outputs, StatusCodeParam)), OutputText(outputs, ResultParam)))
  }

  /** `ExecuteWithErrorHandling()` of `call` run as the `n`-th call on the
      database `databaseName`: a driver error is thrown, a status other than
      `Success` becomes a business exception that describes the command as it
      stands after execution, otherwise the JSON text is the result. */
  function HandledOf(databaseName: string, database: (nat, ProcCall) -> Result<map<string, Obj>, Exn>, parse: Parser,
                     n: nat, call: ProcCall): Result<Option<string>, Exn> {
    match AnswerOf(database, n, call)
    case Failure(e) => Failure(e)
    case Success(res) =>
      HandleResult(res, CommandString(databaseName, call.name, DataCommands.WithOutputs(call.parameters, database(n, call).value)), parse)
  }

  class DataVaultContext {
    /** The database name the command descriptions show. */
    const databaseName: string
    /** The audit information the audit context gives every update call. */
    const auditInfo: Option<Json>
    const database: (nat, ProcCall) -> Result<map<string, Obj>, Exn>
    /** `ExecuteWithErrorHandling()` of a call run as the `n`-th call:
        `HandledOf` this database (see `Valid`). */
    const handled: (nat, ProcCall) -> Result<Option<string>, Exn>
    const parse: Parser
    const decodeEntity: string -> Result<Record, Exn>
    const decodeEntities: string -> Result<seq<Option<Record>>, Exn>
    const decodeLookups: string -> Result<seq<LookupItem>, Exn>
    const cache: DistributedCache<seq<LookupItem>>
    /** The `DataContext` part: the lazily created session and its transaction. */
    const store: DataContexts.DataContext
    /** The calls made so far, in order. */
    var calls: seq<ProcCall>

    constructor (databaseName: string, auditInfo: Option<Json>, database: (nat, ProcCall) -> Result<map<string, Obj>, Exn>,
                 parse: Parser,
                 decodeEntity: string -> Result<Record, Exn>, decodeEntities: string -> Result<seq<Option<Record>>, Exn>,
                 decodeLookups: string -> Result<seq<LookupItem>, Exn>, cache: DistributedCache<seq<LookupItem>>,
                 store: DataContexts.DataContext)
      ensures this.databaseName == databaseName && this.auditInfo == auditInfo && this.database == database
      ensures this.parse == parse && this.decodeEntity == decodeEntity
      ensures this.decodeEntities == decodeEntities && this.decodeLookups == decodeLookups && this.cache == cache
      ensures this.store == store && calls == []
      ensures Valid()
    {
      this.databaseName := databaseName;
      this.auditInfo := auditInfo;
      this.database := database;
      this.handled := (n: nat, call: ProcCall) => HandledOf(databaseName, database, parse, n, call);
      this.parse := parse;
      this.decodeEntity := decodeEntity;
      this.decodeEntities := decodeEntities;
      this.decodeLookups := decodeLookups;
      this.cache := cache;
      this.store := store;
      calls := [];
    }

    /** What the database answers to `call` made as the `n`-th call. */
    function AnswerAt(n: nat, call: ProcCall): Result<VaultResult, Exn> {
      AnswerOf(database, n, call)
    }

    /** A missing, null or unknown status reads as `Failed`, so an answer
        counts as `Success` only when the procedure reported it. */
    lemma AnswerSucceedsOnlyWhenReported(n: nat, call: ProcCall)
      ensures AnswerAt(n, call).Failure? <==> database(n, call).Failure?
      ensures AnswerAt(n, call).Success? && AnswerAt(n, call).value.statusCode == SuccessCode ==>
        OutputText(database(n, call).value, StatusCodeParam).Some?
    {
      if database(n, call).Success? {
        DecodeStatusFailsClosed(OutputText(database(n, call).value, StatusCodeParam));
      }
    }

    /** The description of `call` once the driver has written its outputs. */
    function DescriptionAt(n: nat, call: ProcCall): string
      requires database(n, call).Success?
    {
      CommandString(databaseName, call.name, DataCommands.WithOutputs(call.parameters, database(n, call).value))
    }

    /** Every call is handled as `ExecuteWithErrorHandling()` handles it. */
    ghost predicate Valid() {
      forall n: nat, call: ProcCall {:trigger HandledOf(databaseName, database, parse, n, call)} ::
        handled(n, call) == HandledOf(databaseName, database, parse, n, call)
    }

    /** `ExecuteWithErrorHandling()` of `call` made as the `n`-th call. */
    function HandledAt(n: nat, call: ProcCall): Result<Option<string>, Exn> {
      handled(n, call)
    }

    /** A driver error is thrown; a status other than `Success` becomes a
        business exception that describes the command as it stands after
        execution; otherwise the JSON text is the result. */
    lemma HandledAtCases(n: nat, call: ProcCall)
      requires Valid()
      ensures AnswerAt(n, call).Failure? ==> HandledAt(n, call) == Failure(AnswerAt(n, call).error)
      ensures AnswerAt(n, call).Success? ==> HandledAt(n, call) == HandleResult(AnswerAt(n, call).value, DescriptionAt(n, call), parse)
    {
      assert handled(n, call) == HandledOf(databaseName, database, parse, n, call);
    }

    /** `ExecuteWithErrorHandling<T>()` of `call` made as the `n`-th call. */
    function TypedAt<T>(n: nat, call: ProcCall, decode: string -> Result<T, Exn>): (r: Result<Option<T>, Exn>)
      ensures HandledAt(n, call).Failure? ==> r == Failure(HandledAt(n, call).error)
      ensures HandledAt(n, call).Success? ==> r == DecodeTyped(HandledAt(n, call).value, parse, decode)
    {
      var json :- HandledAt(n, call);
      DecodeTyped(json, parse, decode)
    }

    /** What the database answers to `call` made next. */
    function Answer(call: ProcCall): Result<VaultResult, Exn>
      reads this
    {
      AnswerAt(|calls|, call)
    }

    /** `ExecuteWithErrorHandling()` of `call` made next. */
    function Handled(call: ProcCall): Result<Option<string>, Exn>
      reads this
    {
      HandledAt(|calls|, call)
    }

    /** `ExecuteWithErrorHandling<T>()`: the handled JSON text, deserialised. */
    function Typed<T>(call: ProcCall, decode: string -> Result<T, Exn>): (r: Result<Option<T>, Exn>)
      reads this
      ensures Handled(call).Failure? ==> r == Failure(Handled(call).error)
      ensures Handled(call).Success? ==> r == DecodeTyped(Handled(call).value, parse, decode)
    {
      TypedAt(|calls|, call, decode)
    }

    /** `Execute()` of `call` made next: only a driver error is thrown; the
        status the procedure reports is not looked at. */
    function Executed(call: ProcCall): (r: Option<Exn>)
      reads this
      ensures r.Some? <==> Answer(call).Failure?
      ensures r.Some? ==> r.value == Answer(call).error
    {
      ExecutedAt(|calls|, call)
    }

    /** `Execute()` of `call` made as the `n`-th call: only a driver error is thrown. */
    function ExecutedAt(n: nat, call: ProcCall): (r: Option<Exn>)
      ensures r.Some? <==> AnswerAt(n, call).Failure?
      ensures r.Some? ==> r.value == AnswerAt(n, call).error
    {
      if database(n, call).Failure? then Some(database(n, call).error) else None
    }

    /** A business exception describes the call with the values the driver
        wrote: the status and result parameters show what the procedure
        reported, not the nulls bound before execution. */
    lemma BusinessErrorDescribesOutputs(n: nat, call: ProcCall, inputs: seq<DbParameter>)
      requires Valid()
      requires call.parameters == ReadOnlyParameters + inputs
      requires database(n, call).Success?
      requires AnswerAt(n, call).value.statusCode != SuccessCode
      requires ParseMessage(AnswerAt(n, call).value.jsonResult, parse).Success?
      ensures HandledAt(n, call).Failure?
      ensures HandledAt(n, call).error.kind
           == Business(AnswerAt(n, call).value.statusCode,
                       CommandString(databaseName, call.name, DataCommands.WithOutputs(call.parameters, database(n, call).value)))
      ensures var outputs := database(n, call).value;
        DataCommands.WithOutputs(call.parameters, outputs)[0].value == (if StatusCodeParam in outputs then outputs[StatusCodeParam] else ONull) &&
        DataCommands.WithOutputs(call.parameters, outputs)[1].value == (if ResultParam in outputs then outputs[ResultParam] else ONull)
    {
      HandledAtCases(n, call);
      HandleResultCases(AnswerAt(n, call).value, DescriptionAt(n, call), parse);
      assert call.parameters[0] == OutputParameter(StatusCodeParam, TString);
      assert call.parameters[1] == OutputParameter(ResultParam, TString);
    }

    /** A procedure that reports any status but `Success` never yields a
        result, typed or not, while `Execute()` lets the status pass. */
    lemma FailedStatusNeverYields<T>(call: ProcCall, decode: string -> Result<T, Exn>)
      requires Valid()
      requires Answer(call).Success? && Answer(call).value.statusCode != SuccessCode
      ensures Handled(call).Failure? && Typed(call, decode).Failure?
      ensures Executed(call).None?
    {
      HandledAtCases(|calls|, call);
      HandleResultCases(Answer(call).value, DescriptionAt(|calls|, call), parse);
    }

    /** A successful status with no JSON content reads as no record at all. */
    lemma EmptyResultIsNull<T>(call: ProcCall, decode: string -> Result<T, Exn>)
      requires Valid()
      requires Answer(call).Success? && Answer(call).value.statusCode == SuccessCode
      requires !HasJsonValue(Answer(call).value.jsonResult, parse)
      ensures Typed(call, decode) == Success(None)
    {
      HandledAtCases(|calls|, call);
      HandleResultCases(Answer(call).value, DescriptionAt(|calls|, call), parse);
    }

    /** The lookup list `ReadLookup` gives: the cached one when the cache
        holds it, otherwise the one read from the database. */
    function LookupOutcome(lookupTableName: string): Result<Option<seq<LookupItem>>, Exn>
      reads this, cache
    {
      if GetOp !in cache.failing && cache.Stored(LookupCacheKey(lookupTableName)).Some? then
        Success(cache.Stored(LookupCacheKey(lookupTableName)))
      else Typed(ReadLookupCall(lookupTableName), decodeLookups)
    }

    // ---- hubs and links ----

    /** `ReadRecord<TEntity>(hubData, satData)`: a null selection reads every satellite column. */
    method ReadRecord(t: TypeInfo, hubData: Option<Json>, satData: Option<Json>) returns (r: Result<Option<Record>, Exn>)
      modifies this
      ensures calls == old(calls) + [ReadRecordCall(t, hubData, satData)]
      ensures r == old(Typed(ReadRecordCall(t, hubData, satData), decodeEntity))
    {
      var call := ReadRecordCall(t, hubData, satData);
      r := Typed(call, decodeEntity);
      calls := calls + [call];
    }

    /** `CreateRecord<TEntity>(hubData, satData)`: a null hub becomes `{}`; the new id is the JSON text. */
    method CreateRecord(t: TypeInfo, hubData: Option<Json>, satData: Option<Json>) returns (r: Result<Option<string>, Exn>)
      modifies this
      ensures calls == old(calls) + [CreateRecordCall(t, auditInfo, hubData, satData)]
      ensures r == old(Handled(CreateRecordCall(t, auditInfo, hubData, satData)))
    {
      var call := CreateRecordCall(t, auditInfo, hubData, satData);
      r := Handled(call);
      calls := calls + [call];
    }

    /** `LinkRecord<TEntity>(foreignKeys, satData)`: null foreign keys become `{}`. */
    method LinkRecord(t: TypeInfo, foreignKeys: Option<Json>, satData: Option<Json>) returns (r: Result<Option<string>, Exn>)
      modifies this
      ensures calls == old(calls) + [LinkRecordCall(t, auditInfo, foreignKeys, satData)]
      ensures r == old(Handled(LinkRecordCall(t, auditInfo, foreignKeys, satData)))
    {
      var call := LinkRecordCall(t, auditInfo, foreignKeys, satData);
      r := Handled(call);
      calls := calls + [call];
    }

    /** `UpdateRecord<TEntity>(hubPk, satData)`: when no satellite property
        carries a value nothing is sent and the key is returned as it is. */
    method UpdateRecord(t: TypeInfo, hubPk: Option<string>, satData: Option<Json>) returns (r: Result<Option<string>, Exn>)
      modifies this
      ensures HasSatValues(satData).Failure? ==> r == Failure(HasSatValues(satData).error) && calls == old(calls)
      ensures HasSatValues(satData) == Success(false) ==> r == Success(hubPk) && calls == old(calls)
      ensures HasSatValues(satData) == Success(true) ==>
        calls == old(calls) + [UpdateRecordCall(t, auditInfo, hubPk, satData)] &&
        r == old(Handled(UpdateRecordCall(t, auditInfo, hubPk, satData)))
    {
      var valid := HasSatValues(satData);
      if valid.Failure? {
        return Failure(valid.error);
      }
      if !valid.value {
        return Success(hubPk);
      }
      var call := UpdateRecordCall(t, auditInfo, hubPk, satData);
      r := Handled(call);
      calls := calls + [call];
    }

    /** `UpdateLink<TEntity>(linkPk, satData)`: always sent; the status is not checked. */
    method UpdateLink(t: TypeInfo, linkPk: Option<string>, satData: Option<Json>) returns (r: Option<Exn>)
      modifies this
      ensures calls == old(calls) + [UpdateLinkCall(t, auditInfo, linkPk, satData)]
      ensures r == old(Executed(UpdateLinkCall(t, auditInfo, linkPk, satData)))
    {
      var call := UpdateLinkCall(t, auditInfo, linkPk, satData);
      r := Executed(call);
      calls := calls + [call];
    }

    /** `DeleteRecord<TEntity>(hubPk)`: the status is not checked. */
    method DeleteRecord(t: TypeInfo, hubPk: Option<string>) returns (r: Option<Exn>)
      modifies this
      ensures calls == old(calls) + [DeleteRecordCall(t, auditInfo, hubPk)]
      ensures r == old(Executed(DeleteRecordCall(t, auditInfo, hubPk)))
    {
      var call := DeleteRecordCall(t, auditInfo, hubPk);
      r := Executed(call);
      calls := calls + [call];
    }

    /** `UnLinkRecord<TEntity>(linkPk)`: the status is not checked. */
    method UnLinkRecord(t: TypeInfo, linkPk: Option<string>) returns (r: Option<Exn>)
      modifies this
      ensures calls == old(calls) + [UnLinkRecordCall(t, auditInfo, linkPk)]
      ensures r == old(Executed(UnLinkRecordCall(t, auditInfo, linkPk)))
    {
      var call := UnLinkRecordCall(t, auditInfo, linkPk);
      r := Executed(call);
      calls := calls + [call];
    }

    /** `ReadRecords<TEntity>(satQuery)`: no content reads as an empty list. */
    method ReadRecords(t: TypeInfo, satQuery: Option<Json>) returns (r: Result<seq<Option<Record>>, Exn>)
      modifies this
      ensures calls == old(calls) + [ReadRecordsCall(t, satQuery)]
      ensures r == OrEmpty(old(Typed(ReadRecordsCall(t, satQuery), decodeEntities)))
    {
      var call := ReadRecordsCall(t, satQuery);
      r := OrEmpty(Typed(call, decodeEntities));
      calls := calls + [call];
    }

    /** `ReadLinks<TEntity>(satQuery)`: no content reads as an empty list. */
    method ReadLinks(t: TypeInfo, satQuery: Option<Json>) returns (r: Result<seq<Option<Record>>, Exn>)
      modifies this
      ensures calls == old(calls) + [ReadLinksCall(t, satQuery)]
      ensures r == OrEmpty(old(Typed(ReadLinksCall(t, satQuery), decodeEntities)))
    {
      var call := ReadLinksCall(t, satQuery);
      r := OrEmpty(Typed(call, decodeEntities));
      calls := calls + [call];
    }

    /** `ReadView<TEntity>(viewName, satQuery)`: no content reads as an empty list. */
    method ReadView(viewName: string, satQuery: Option<Json>) returns (r: Result<seq<Option<Record>>, Exn>)
      modifies this
      ensures calls == old(calls) + [ReadViewCall(viewName, satQuery)]
      ensures r == OrEmpty(old(Typed(ReadViewCall(viewName, satQuery), decodeEntities)))
    {
      var call := ReadViewCall(viewName, satQuery);
      r := OrEmpty(Typed(call, decodeEntities));
      calls := calls + [call];
    }

    /** `ReadView<TEntity>(satQuery)`: the view named after the entity. */
    method ReadViewOf(t: TypeInfo, satQuery: Option<Json>) returns (r: Result<seq<Option<Record>>, Exn>)
      modifies this
      ensures calls == old(calls) + [ReadViewCall(GetEntityName(t), satQuery)]
      ensures r == OrEmpty(old(Typed(ReadViewCall(GetEntityName(t), satQuery), decodeEntities)))
    {
      r := ReadView(GetEntityName(t), satQuery);
    }

    // ---- lookups ----

    /** `ReadLookups()`: every lookup item; no content reads as null. */
    method ReadLookups() returns (r: Result<Option<seq<LookupItem>>, Exn>)
      modifies this
      ensures calls == old(calls) + [ReadLookupsCall]
      ensures r == old(Typed(ReadLookupsCall, decodeLookups))
    {
      r := Typed(ReadLookupsCall, decodeLookups);
      calls := calls + [ReadLookupsCall];
    }

    /** `ReadLookup(lookupTableName)`: served from the cache under
        `Lookup:<name>` when present; otherwise read from the database and
        cached for an absolute 60 minutes. */
    method ReadLookup(lookupTableName: string) returns (r: Result<Option<seq<LookupItem>>, Exn>)
      modifies this, cache
      ensures r == old(LookupOutcome(lookupTableName))
      ensures GetOp !in cache.failing && old(cache.Stored(LookupCacheKey(lookupTableName))).Some? ==>
        calls == old(calls) && cache.backend == old(cache.backend)
      ensures GetOp in cache.failing || old(cache.Stored(LookupCacheKey(lookupTableName))).None? ==>
        calls == old(calls) + [ReadLookupCall(lookupTableName)]
      ensures (GetOp in cache.failing || old(cache.Stored(LookupCacheKey(lookupTableName))).None?) &&
              r.Success? && SetOp !in cache.failing ==>
        cache.backend == old(cache.backend)[NormalizeKey(cache.cacheName, LookupCacheKey(lookupTableName)) := (r.value, LookupEntryOptions)]
      ensures GetOp !in cache.failing && SetOp !in cache.failing && r.Success? && r.value.Some? ==>
        LookupOutcome(lookupTableName) == r
    {
      var call := ReadLookupCall(lookupTableName);
      var produced := Typed(call, decodeLookups);
      var called;
      r, called := cache.GetOrAdd(LookupCacheKey(lookupTableName), produced, Some(LookupEntryOptions));
      if called {
        calls := calls + [call];
      }
    }

    /** `ReadLookup<TLookup>()` / `ReadLookup(Type)`: the table the lookup type names. */
    method ReadLookupOf(lookupType: TypeInfo) returns (r: Result<Option<seq<LookupItem>>, Exn>)
      modifies this, cache
      ensures r == old(LookupOutcome(GetLookupTableName(lookupType)))
      ensures GetOp !in cache.failing && SetOp !in cache.failing && r.Success? && r.value.Some? ==>
        LookupOutcome(GetLookupTableName(lookupType)) == r
    {
      r := ReadLookup(GetLookupTableName(lookupType));
    }

    /** `ValidateLookupValue(lookupTableName, value)`: the list is always read
        first, then the value must be non-blank and one of its codes. */
    method ValidateLookupValue(lookupTableName: string, value: Option<string>) returns (r: Result<bool, Exn>)
      modifies this, cache
      ensures r == ValidateItems(old(LookupOutcome(lookupTableName)), value)
    {
      var items := ReadLookup(lookupTableName);
      r := ValidateItems(items, value);
    }

    /** `ValidateLookupValue<TLookup>(value)`: a blank value is invalid
        without reading anything. */
    method ValidateLookupValueOf(lookupType: TypeInfo, value: Option<string>) returns (r: Result<bool, Exn>)
      modifies this, cache
      ensures StringExtension.IsNullOrWhiteSpace(value) ==> r == Success(false) && calls == old(calls)
      ensures !StringExtension.IsNullOrWhiteSpace(value) ==>
        r == ValidateItems(old(LookupOutcome(GetLookupTableName(lookupType))), value)
    {
      if StringExtension.IsNullOrWhiteSpace(value) {
        return Success(false);
      }
      r := ValidateLookupValue(GetLookupTableName(lookupType), value);
    }

    /** `CheckLookupValue<TLookup>(value)`: the list is read, then the value
        validated (which reads the list again, from the cache when it holds
        it); throws `InvalidLookupException`, naming the codes of the first
        list, exactly when the value does not validate. */
    method CheckLookupValue(lookupType: TypeInfo, value: Option<string>) returns (r: Option<Exn>)
      modifies this, cache
      ensures old(LookupOutcome(GetLookupTableName(lookupType))).Failure? ==>
        r == Some(old(LookupOutcome(GetLookupTableName(lookupType))).error)
      ensures r.None? ==> value.Some? && !Blank(value.value)
      ensures StringExtension.IsNullOrWhiteSpace(value) && old(LookupOutcome(GetLookupTableName(lookupType))).Success? ==>
        r == Some(Raise(InvalidLookup, InvalidLookupMessage(lookupType, value, old(LookupOutcome(GetLookupTableName(lookupType))).value)))
      ensures GetOp !in cache.failing && SetOp !in cache.failing && !StringExtension.IsNullOrWhiteSpace(value) &&
              old(LookupOutcome(GetLookupTableName(lookupType))).Success? &&
              old(LookupOutcome(GetLookupTableName(lookupType))).value.Some? ==>
        var items := old(LookupOutcome(GetLookupTableName(lookupType))).value;
        (r.None? <==> HasCode(items.value, value.value)) &&
        (r.Some? ==> r == Some(Raise(InvalidLookup, InvalidLookupMessage(lookupType, value, items))))
    {
      var items := ReadLookupOf(lookupType);
      if items.Failure? {
        return Some(items.error);
      }
      var valid := ValidateLookupValueOf(lookupType, value);
      if valid.Failure? {
        return Some(valid.error);
      }
      if !valid.value {
        return Some(Raise(InvalidLookup, InvalidLookupMessage(lookupType, value, items.value)));
      }
      r := None;
    }

    /** `GenerateEntityUniqueSequence<TEntity>()`: a driver error is thrown;
        otherwise the `Return<string>` callback, which fires once the call
        has run, gives the text the procedure returned (null when it
        returned none). */
    method GenerateEntityUniqueSequence(t: TypeInfo) returns (r: Result<Option<string>, Exn>)
      modifies this
      ensures calls == old(calls) + [SequenceCall(t)]
      ensures old(database(|calls|, SequenceCall(t))).Failure? ==> r == Failure(old(database(|calls|, SequenceCall(t))).error)
      ensures old(database(|calls|, SequenceCall(t))).Success? ==>
        r == Success(OutputText(old(database(|calls|, SequenceCall(t))).value, ReturnValueName))
    {
      var call := SequenceCall(t);
      var answer := database(|calls|, call);
      calls := calls + [call];
      if answer.Failure? {
        return Failure(answer.error);
      }
      var returned := DataCommands.Invoke(SequenceCallback, DataCommands.WithOutputs(call.parameters, answer.value));
      SequenceCallbackReadsReturnValue(t, answer.value);
      r := Success(AsText(returned));
    }
  }
}
