/** `DataVaultCommand`: a stored-procedure call in the data-vault
    convention.  Every procedure reports a status code and a JSON result in
    two output parameters; the two callbacks registered for them fill a
    `DataVaultResult`.  A status other than `Success` is turned into a
    business exception carrying the procedure's message. */
module DataVaultCommands {
  import opened Wrappers
  import opened Text
  import opened Values
  import opened Exceptions
  import opened Json
  import opened StringConvert
  import FlatJson
  import opened DataSessions
  import opened DataCommandExtensions
  import opened DataCommands

  // ---- DataVaultParams ----
  const StatusCodeParam := "STATUS_CODE"
  const ResultParam := "RESULT"
  const HubDataParam := "HUB_DATA"
  const SatDataParam := "SAT_DATA"
  const SatQueryParam := "SAT_QUERY"
  const FkParam := "FK"
  const HubPkParam := "HUB_PK"
  const LinkPkParam := "LINK_PK"
  const MdParam := "MD"
  const LkpTableParam := "LKP_TABLE"
  const LkpValueParam := "LKP_CODE_VALUE"

  /** The two callbacks of a data-vault command, told apart by these handlers. */
  const StatusHandler: nat := 0
  const ResultHandler: nat := 1

  /** The members of `DataVaultBusinessErrorCode`, name and value. */
  const BusinessMembers: EnumMembers := [
    ("Failed", -1), ("Success", 0), ("EmailAlreadyExists", 101), ("InvalidPrimaryKey", 102),
    ("InvalidSatellitePayloadFormat", 103), ("InvalidSatelliteData", 104), ("InvalidDateTimeData", 105),
    ("PayloadExceedFieldMaximumLength", 106), ("BusinessKeyIsRequired", 107),
    ("NumberOfFkFieldsNotMatchGranularityOfLink", 108), ("NumberOfBkFieldsNotMatchRequiredBkOfHub", 109),
    ("InvalidTableName", 110), ("InvalidInputValue", 111)]

  const FailedCode := -1
  const SuccessCode := 0
  const SuccessName := "Success"

  /** The status callback: `p.ToEnumOrDefault(DataVaultBusinessErrorCode.Failed)`. */
  function DecodeStatus(p: Option<string>): int {
    ToEnumOrDefault(BusinessMembers, Int32, p, FailedCode)
  }

  /** A status that is null, empty or not a member name or number decodes
      to `Failed`: only a status the procedure actually reports as `Success`
      (by name or as 0) is a success. */
  lemma DecodeStatusFailsClosed(p: Option<string>)
    ensures p.None? || p == Some("") ==> DecodeStatus(p) == FailedCode
    ensures p.Some? && TryParseEnum(BusinessMembers, Int32, p.value).None? ==> DecodeStatus(p) == FailedCode
    ensures DecodeStatus(p) == SuccessCode ==> p.Some? && TryParseEnum(BusinessMembers, Int32, p.value) == Some(SuccessCode)
  {
  }

  /** The status decodes by member name in any case, or by number. */
  lemma DecodeStatusByName()
    ensures DecodeStatus(Some(SuccessName)) == SuccessCode
  {
    SuccessFound();
    SuccessNameShape();
    ToEnumOrDefaultOfFound(BusinessMembers, Int32, SuccessName, FailedCode);
  }

  lemma SuccessFound()
    ensures FindMember(BusinessMembers, SuccessName) == Some(SuccessCode)
  {
    var name := SuccessName;
    assert Lower(BusinessMembers[0].0) != Lower(name) by { assert |Lower(BusinessMembers[0].0)| == 6; }
    var rest := BusinessMembers[1..];
    assert rest[0] == ("Success", SuccessCode);
    assert FindMember(rest, name) == Some(SuccessCode);
  }

  /** A comma-separated list of names decodes to the OR of their values. */
  lemma DecodeStatusOfNameList()
    ensures DecodeStatus(Some(SuccessName + "," + SuccessName)) == SuccessCode
  {
    SuccessPair();
  }

  lemma SuccessPair()
    ensures ToEnumOrDefault(BusinessMembers, Int32, Some(SuccessName + "," + SuccessName), FailedCode) == SuccessCode
  {
    SuccessNameShape();
    SuccessFound();
    ToEnumOrDefaultOfRepeatedName(BusinessMembers, Int32, SuccessName, FailedCode);
  }

  lemma SuccessNameShape()
    ensures PlainName(SuccessName)
  {
    var s := SuccessName;
    assert s == ['S', 'u', 'c', 'c', 'e', 's', 's'];
    assert s[0] == 'S' && !StartsNumber('S');
    assert forall i :: 0 <= i < |s| ==> s[i] != ',';
  }

  /** The status is read as a 32-bit number: 2^31 is out of range. */
  lemma DecodeStatusOverflow()
    ensures DecodeStatus(Some(IntToString(0x8000_0000))) == FailedCode
  {
    ToEnumOrDefaultOverflow(BusinessMembers, Int32, 0x8000_0000, FailedCode);
  }

  lemma DecodeStatusByNumber()
    ensures DecodeStatus(Some("0")) == SuccessCode
  {
    assert IntToString(0) == "0";
    ToEnumOrDefaultOfNumber(BusinessMembers, Int32, 0, FailedCode);
  }

  /** `DataVaultResult`: the status (raw enum value) and the JSON text. */
  datatype VaultResult = VaultResult(statusCode: int, jsonResult: Option<string>)

  /** A fresh `DataVaultResult`: the enum's default (0, `Success`) and no text. */
  const InitialResult := VaultResult(SuccessCode, None)

  /** The string an output callback receives (`ParameterOut<string>`). */
  function AsText(o: Obj): (r: Option<string>)
    ensures r.Some? <==> o.OStr?
  {
    if o.OStr? then Some(o.s) else None
  }

  /** One callback run on the result. */
  function Apply(r: VaultResult, d: Delivery): VaultResult {
    if d.handler == StatusHandler then VaultResult(DecodeStatus(AsText(d.value)), r.jsonResult)
    else if d.handler == ResultHandler then VaultResult(r.statusCode, AsText(d.value))
    else r
  }

  /** The result once the callbacks in `ds` have run, in order. */
  function ResultOf(ds: seq<Delivery>): VaultResult
    decreases |ds|
  {
    if ds == [] then InitialResult else Apply(ResultOf(ds[..|ds| - 1]), ds[|ds| - 1])
  }

  /** The parameters and callbacks `ReadOnlyStoredProcedure` binds. */
  const ReadOnlyParameters := [OutputParameter(StatusCodeParam, TString), OutputParameter(ResultParam, TString)]
  const ReadOnlyCallbacks := [DataCallback(StatusHandler, ONull, 0), DataCallback(ResultHandler, ONull, 1)]

  /** What the driver left in an output parameter, as the callback sees it. */
  function OutputText(outputs: map<string, Obj>, name: string): Option<string> {
    if name in outputs then AsText(outputs[name]) else None
  }

  /** Once a data-vault command has run, its result is exactly the decoded
      status and the text the driver wrote to the two output parameters,
      whatever input parameters followed them; a missing or `DBNull` status
      reads as `Failed`. */
  lemma ResultOfOutputs(inputs: seq<DbParameter>, outputs: map<string, Obj>)
    ensures ResultOf(Deliveries(ReadOnlyCallbacks, WithOutputs(ReadOnlyParameters + inputs, outputs)))
         == VaultResult(DecodeStatus(OutputText(outputs, StatusCodeParam)), OutputText(outputs, ResultParam))
  {
    var ps := WithOutputs(ReadOnlyParameters + inputs, outputs);
    var ds := Deliveries(ReadOnlyCallbacks, ps);
    assert (ReadOnlyParameters + inputs)[0] == OutputParameter(StatusCodeParam, TString);
    assert (ReadOnlyParameters + inputs)[1] == OutputParameter(ResultParam, TString);
    assert ds[..1] == [ds[0]];
    assert ds[..|ds| - 1] == [ds[0]];
  }

  /** A null text is passed as a null (DBNull) string parameter. */
  function TextObj(value: Option<string>): Obj {
    match value
    case None => ONull
    case Some(s) => OStr(s)
  }

  /** `Parameter<string>(name, value)` as the binders add it. */
  function StringParameter(name: string, value: Option<string>): (r: DbParameter)
    ensures r.direction == Input && r.name == name && r.dbType == DbOfType(TString)
    ensures r.value == if value.Some? then OStr(value.value) else ODBNull
  {
    InputParameter(name, TextObj(value), TString)
  }

  // ---- ParseMessage ----

  const DefaultBusinessMessage := "Exception of type 'DataVault.DataVaultBusinessException' was thrown."
  const NotAnObjectMessage := "Error reading JObject from JsonReader."

  /** `messageJson.Value<string>()` */
  function TokenText(t: Json): (r: Result<Option<string>, Exn>)
    ensures t.JStr? ==> r == Success(Some(t.s))
    ensures t.JNull? ==> r == Success(None)
    ensures r.Failure? <==> IsContainer(t)
  {
    match t
    case JNull => Success(None)
    case JStr(s) => Success(Some(s))
    case JNum(n) => Success(Some(IntToString(n)))
    case JBool(b) => Success(Some(if b then "True" else "False"))
    case _ => Failure(Raise(InvalidCast, "Cannot cast JObject to JToken."))
  }

  /** `ParseMessage(jsonResult)`: text that is not `ValidJson` is the
      message itself; otherwise the text must be a JSON object, whose
      `message` property, when present, is the message. */
  function ParseMessage(jsonResult: Option<string>, parse: Parser): (r: Result<Option<string>, Exn>)
  {
    if !ValidJson(jsonResult, parse) then Success(jsonResult)
    else match parse(jsonResult.value)
      case Some(JObj(props)) =>
        (match FlatJson.Lookup(props, "message")
         case Some(m) => TokenText(m)
         case None => Success(jsonResult))
      case _ => Failure(Raise(JsonReader, NotAnObjectMessage))
  }

  /** The cases of `ParseMessage`. */
  lemma ParseMessageCases(jsonResult: Option<string>, parse: Parser)
    ensures !ValidJson(jsonResult, parse) ==> ParseMessage(jsonResult, parse) == Success(jsonResult)
    ensures ValidJson(jsonResult, parse) && parse(jsonResult.value).Some? && parse(jsonResult.value).value.JObj? ==>
      var props := parse(jsonResult.value).value.props;
      (FlatJson.Lookup(props, "message").Some? && FlatJson.Lookup(props, "message").value.JStr? ==>
         ParseMessage(jsonResult, parse) == Success(Some(FlatJson.Lookup(props, "message").value.s))) &&
      (FlatJson.Lookup(props, "message").None? ==> ParseMessage(jsonResult, parse) == Success(jsonResult))
    ensures ValidJson(jsonResult, parse) && (parse(jsonResult.value).None? || !parse(jsonResult.value).value.JObj?) ==>
      ParseMessage(jsonResult, parse).Failure? && ParseMessage(jsonResult, parse).error.kind == JsonReader
  {
  }

  /** A JSON array passes `ValidJson` yet is not an object: the message
      cannot be parsed and the business error is lost behind a reader error. */
  lemma ParseMessageOfArray(text: string, items: seq<Json>, parse: Parser)
    requires |text| >= 1 && text[0] == '[' && text[|text| - 1] == ']'
    requires parse(text) == Some(JArr(items))
    ensures ParseMessage(Some(text), parse) == Failure(Raise(JsonReader, NotAnObjectMessage))
  {
    TrimUnchanged(text);
    assert !Blank(text) by { assert !IsWhiteSpace(text[0]); }
    StartsWithFirst(text, '[');
    EndsWithLast(text, ']');
    assert ValidJson(Some(text), parse);
  }

  /** The message a business exception carries (a null one gets the default text). */
  function MessageText(m: Option<string>): string {
    m.GetOr(DefaultBusinessMessage)
  }

  /** `ExecuteWithErrorHandling()` after a successful execution: `Success`
      gives the JSON result; any other status throws a business exception
      with the status, the parsed message and the command description. */
  function HandleResult(res: VaultResult, commandLog: string, parse: Parser): (r: Result<Option<string>, Exn>)
  {
    if res.statusCode == SuccessCode then Success(res.jsonResult)
    else
      var message :- ParseMessage(res.jsonResult, parse);
      Failure(Raise(Business(res.statusCode, commandLog), MessageText(message)))
  }

  /** Success exactly for status `Success`; any other status is an error,
      a business one whenever the message can be parsed. */
  lemma HandleResultCases(res: VaultResult, commandLog: string, parse: Parser)
    ensures HandleResult(res, commandLog, parse).Success? <==> res.statusCode == SuccessCode
    ensures res.statusCode == SuccessCode ==> HandleResult(res, commandLog, parse).value == res.jsonResult
    ensures res.statusCode != SuccessCode && ParseMessage(res.jsonResult, parse).Success? ==>
      HandleResult(res, commandLog, parse).error.kind == Business(res.statusCode, commandLog) &&
      HandleResult(res, commandLog, parse).error.message == MessageText(ParseMessage(res.jsonResult, parse).value)
    ensures res.statusCode != SuccessCode && !ValidJson(res.jsonResult, parse) && res.jsonResult.Some? ==>
      HandleResult(res, commandLog, parse).error.message == res.jsonResult.value
  {
  }

  /** The text handed to `FromJsonString` after nesting. */
  function NestedText(n: FlatJson.NestedText): string {
    match n
    case Rendered(token) => Serialize(token)
    case Verbatim(text) => text
  }

  /** `ExecuteWithErrorHandling<TEntity>()` after the untyped call: a result
      without JSON content gives `default`; otherwise it is nested and
      deserialised by `decode`. */
  function DecodeTyped<T>(json: Option<string>, parse: Parser, decode: string -> Result<T, Exn>): (r: Result<Option<T>, Exn>)
    ensures !HasJsonValue(json, parse) ==> r == Success(None)
    ensures r.Success? && r.value.Some? ==> HasJsonValue(json, parse)
  {
    if HasJsonValue(json, parse) then
      var nested :- FlatJson.ToNestedJson(json.value, parse);
      FromJsonString(Some(NestedText(nested)), decode)
    else Success(None)
  }

  /** Text with JSON content is always nested as a tree, never passed on verbatim. */
  lemma DecodeTypedRenders<T>(text: string, parse: Parser, decode: string -> Result<T, Exn>)
    requires HasJsonValue(Some(text), parse)
    ensures FlatJson.ToNestedJson(text, parse).Success? ==> FlatJson.ToNestedJson(text, parse).value.Rendered?
    ensures FlatJson.ToNestedJson(text, parse).Success? ==>
      DecodeTyped(Some(text), parse, decode).Success? == decode(NestedText(FlatJson.ToNestedJson(text, parse).value)).Success?
  {
  }

  class DataVaultCommand {
    const command: DataCommand

    constructor (command: DataCommand)
      ensures this.command == command
    {
      this.command := command;
    }

    /** The `DataVaultResult` the callbacks have filled so far. */
    function Result(): VaultResult
      reads command
    {
      ResultOf(command.invoked)
    }

    // ---- the With* binders ----

    /** `WithParameter(name, value)` */
    method WithParameter(name: string, value: Option<string>)
      modifies command
      ensures command.parameters == old(command.parameters) + [StringParameter(name, value)]
      ensures command.callbacks == old(command.callbacks) && command.invoked == old(command.invoked)
      ensures command.commandText == old(command.commandText) && command.commandType == old(command.commandType) && command.disposed == old(command.disposed)
    {
      AddInput(command, name, TextObj(value), TString);
    }

    /** A composite payload, JSON-encoded (`ToJsonString`; null stays null). */
    method WithJson(name: string, data: Option<Json>)
      modifies command
      ensures command.parameters == old(command.parameters) + [StringParameter(name, ToJsonString(data))]
      ensures command.callbacks == old(command.callbacks) && command.invoked == old(command.invoked)
      ensures command.commandText == old(command.commandText) && command.commandType == old(command.commandType) && command.disposed == old(command.disposed)
    {
      WithParameter(name, ToJsonString(data));
    }

    method WithHubData(data: Option<Json>)
      modifies command
      ensures command.parameters == old(command.parameters) + [StringParameter(HubDataParam, ToJsonString(data))]
      ensures command.callbacks == old(command.callbacks) && command.invoked == old(command.invoked)
      ensures command.commandText == old(command.commandText) && command.commandType == old(command.commandType) && command.disposed == old(command.disposed)
    {
      WithJson(HubDataParam, data);
    }

    method WithSatData(data: Option<Json>)
      modifies command
      ensures command.parameters == old(command.parameters) + [StringParameter(SatDataParam, ToJsonString(data))]
      ensures command.callbacks == old(command.callbacks) && command.invoked == old(command.invoked)
      ensures command.commandText == old(command.commandText) && command.commandType == old(command.commandType) && command.disposed == old(command.disposed)
    {
      WithJson(SatDataParam, data);
    }

    method WithSatQuery(data: Option<Json>)
      modifies command
      ensures command.parameters == old(command.parameters) + [StringParameter(SatQueryParam, ToJsonString(data))]
      ensures command.callbacks == old(command.callbacks) && command.invoked == old(command.invoked)
      ensures command.commandText == old(command.commandText) && command.commandType == old(command.commandType) && command.disposed == old(command.disposed)
    {
      WithJson(SatQueryParam, data);
    }

    method WithForeignKeys(data: Option<Json>)
      modifies command
      ensures command.parameters == old(command.parameters) + [StringParameter(FkParam, ToJsonString(data))]
      ensures command.callbacks == old(command.callbacks) && command.invoked == old(command.invoked)
      ensures command.commandText == old(command.commandText) && command.commandType == old(command.commandType) && command.disposed == old(command.disposed)
    {
      WithJson(FkParam, data);
    }

    method WithMd(auditInfo: Option<Json>)
      modifies command
      ensures command.parameters == old(command.parameters) + [StringParameter(MdParam, ToJsonString(auditInfo))]
      ensures command.callbacks == old(command.callbacks) && command.invoked == old(command.invoked)
      ensures command.commandText == old(command.commandText) && command.commandType == old(command.commandType) && command.disposed == old(command.disposed)
    {
      WithJson(MdParam, auditInfo);
    }

    method WithHubPk(hubPk: Option<string>)
      modifies command
      ensures command.parameters == old(command.parameters) + [StringParameter(HubPkParam, hubPk)]
      ensures command.callbacks == old(command.callbacks) && command.invoked == old(command.invoked)
      ensures command.commandText == old(command.commandText) && command.commandType == old(command.commandType) && command.disposed == old(command.disposed)
    {
      WithParameter(HubPkParam, hubPk);
    }

    method WithLinkPk(linkPk: Option<string>)
      modifies command
      ensures command.parameters == old(command.parameters) + [StringParameter(LinkPkParam, linkPk)]
      ensures command.callbacks == old(command.callbacks) && command.invoked == old(command.invoked)
      ensures command.commandText == old(command.commandText) && command.commandType == old(command.commandType) && command.disposed == old(command.disposed)
    {
      WithParameter(LinkPkParam, linkPk);
    }

    method WithLookupTable(table: Option<string>)
      modifies command
      ensures command.parameters == old(command.parameters) + [StringParameter(LkpTableParam, table)]
      ensures command.callbacks == old(command.callbacks) && command.invoked == old(command.invoked)
      ensures command.commandText == old(command.commandText) && command.commandType == old(command.commandType) && command.disposed == old(command.disposed)
    {
      WithParameter(LkpTableParam, table);
    }

    method WithLookupCode(code: Option<string>)
      modifies command
      ensures command.parameters == old(command.parameters) + [StringParameter(LkpValueParam, code)]
      ensures command.callbacks == old(command.callbacks) && command.invoked == old(command.invoked)
      ensures command.commandText == old(command.commandText) && command.commandType == old(command.commandType) && command.disposed == old(command.disposed)
    {
      WithParameter(LkpValueParam, code);
    }

    // ---- execution ----

    /** `Execute()`: runs the command (see `DataCommand.ExecuteCommand`) and
        returns the result its callbacks filled. */
    method Execute(open: Result<ConnectionState, Exn>, rows: Result<int, Exn>, outputs: map<string, Obj>)
      returns (r: Result<VaultResult, Exn>)
      requires command.session.Valid()
      modifies command, command.session
      ensures command.session.Valid()
      ensures old(command.disposed) ==> r == Failure(CommandDisposed())
      ensures !old(command.disposed) ==>
        (r.Success? <==> RunCommand(old(command.session.disposed), old(command.session.State()), open, rows,
                                    old(command.commandText), command.database, old(command.parameters)).fired)
      ensures r.Success? ==>
        command.parameters == WithOutputs(old(command.parameters), outputs) &&
        r.value == ResultOf(old(command.invoked) + Deliveries(old(command.callbacks), command.parameters))
      ensures command.commandText == old(command.commandText)
    {
      var wasDisposed := command.disposed;
      var done := command.ExecuteCommand(open, rows, outputs);
      if wasDisposed {
        return Failure(done.error);
      }
      RunFiresOnlyOnSuccess(old(command.session.disposed), old(command.session.State()), open, rows,
                            old(command.commandText), command.database, old(command.parameters));
      if done.Failure? {
        return Failure(done.error);
      }
      r := Success(Result());
    }

    /** `ExecuteWithErrorHandling()`: the command runs; its result is then
        handled by `HandleResult`, with the description of the command as
        it stands after execution. */
    method ExecuteWithErrorHandling(open: Result<ConnectionState, Exn>, rows: Result<int, Exn>, outputs: map<string, Obj>,
                                    parse: Parser) returns (r: Result<Option<string>, Exn>)
      requires command.session.Valid()
      modifies command, command.session
      ensures command.session.Valid()
      ensures old(command.disposed) ==> r == Failure(CommandDisposed())
      ensures (!old(command.disposed) &&
               RunCommand(old(command.session.disposed), old(command.session.State()), open, rows,
                          old(command.commandText), command.database, old(command.parameters)).fired) ==>
        command.parameters == WithOutputs(old(command.parameters), outputs) &&
        r == HandleResult(ResultOf(old(command.invoked) + Deliveries(old(command.callbacks), command.parameters)),
                          CommandString(command.database, command.commandText, command.parameters), parse)
      ensures r.Success? ==>
        (!old(command.disposed) &&
         RunCommand(old(command.session.disposed), old(command.session.State()), open, rows,
                    old(command.commandText), command.database, old(command.parameters)).fired)
    {
      var result := Execute(open, rows, outputs);
      if result.Failure? {
        return Failure(result.error);
      }
      var log := GetCommandString(command.database, command.commandText, command.parameters);
      r := HandleResult(result.value, log, parse);
    }

    /** `ExecuteWithErrorHandling<TEntity>()` */
    method ExecuteWithErrorHandlingOf<T>(open: Result<ConnectionState, Exn>, rows: Result<int, Exn>, outputs: map<string, Obj>,
                                         parse: Parser, decode: string -> Result<T, Exn>) returns (r: Result<Option<T>, Exn>)
      requires command.session.Valid()
      modifies command, command.session
      ensures command.session.Valid()
      ensures old(command.disposed) ==> r == Failure(CommandDisposed())
      ensures (!old(command.disposed) &&
               RunCommand(old(command.session.disposed), old(command.session.State()), open, rows,
                          old(command.commandText), command.database, old(command.parameters)).fired) ==>
        var handled := HandleResult(ResultOf(old(command.invoked) + Deliveries(old(command.callbacks), command.parameters)),
                                    CommandString(command.database, command.commandText, command.parameters), parse);
        (handled.Failure? ==> r == Failure(handled.error)) &&
        (handled.Success? ==> r == DecodeTyped(handled.value, parse, decode))
    {
      var json := ExecuteWithErrorHandling(open, rows, outputs, parse);
      if json.Failure? {
        return Failure(json.error);
      }
      r := DecodeTyped(json.value, parse, decode);
    }
  }

  /** `ReadOnlyStoredProcedure(session, name)`: the procedure with its two
      output parameters bound, before any input. */
  method ReadOnlyStoredProcedure(session: DataSession, name: string) returns (vc: DataVaultCommand)
    ensures fresh(vc) && fresh(vc.command)
    ensures vc.command.session == session && vc.command.transaction == session.transaction
    ensures vc.command.commandText == name && vc.command.commandType == CommandType.StoredProcedure
    ensures vc.command.parameters == ReadOnlyParameters && vc.command.callbacks == ReadOnlyCallbacks
    ensures vc.command.invoked == [] && !vc.command.disposed
    ensures vc.Result() == InitialResult
  {
    var c := SessionStoredProcedure(session, name);
    ParameterOut(c, StatusCodeParam, TString, StatusHandler);
    ParameterOut(c, ResultParam, TString, ResultHandler);
    vc := new DataVaultCommand(c);
  }

  /** `UpdateStoredProcedure(session, audit, name)`: the session transaction
      is begun first (a failure to begin is thrown), so the command runs in
      it; the audit information follows the two outputs. */
  method UpdateStoredProcedure(session: DataSession, auditInfo: Option<Json>, name: string,
                               open: Result<ConnectionState, Exn>, begin: Result<nat, Exn>)
    returns (r: Result<DataVaultCommand, Exn>)
    requires session.Valid()
    modifies session
    ensures session.Valid()
    ensures old(session.transaction).Some? ==> r.Success? && session.transaction == old(session.transaction)
    ensures r.Success? ==>
      fresh(r.value) && fresh(r.value.command) && r.value.command.session == session &&
      session.transaction.Some? && r.value.command.transaction == session.transaction &&
      r.value.command.commandText == name && r.value.command.commandType == CommandType.StoredProcedure &&
      r.value.command.parameters == ReadOnlyParameters + [StringParameter(MdParam, ToJsonString(auditInfo))] &&
      r.value.command.callbacks == ReadOnlyCallbacks && r.value.command.invoked == [] && !r.value.command.disposed
  {
    var tx := session.BeginTransaction(Unspecified, open, begin);
    if tx.Failure? {
      return Failure(tx.error);
    }
    var vc := ReadOnlyStoredProcedure(session, name);
    vc.WithMd(auditInfo);
    r := Success(vc);
  }
}
