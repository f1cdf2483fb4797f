/** `DataCommand`: one database command of a session.  Output-parameter
    callbacks wait in a first-in-first-out queue and fire only after the
    command has run successfully; the command holds the session connection
    only while it runs and is disposed afterwards, so it runs at most once.

    What the database does is passed in: how opening the connection ends
    (`open`), what the command's action yields (`outcome`) and the values
    the driver leaves in the output parameters (`outputs`). */
module DataCommands {
  import opened Wrappers
  import opened Values
  import opened Text
  import opened Exceptions
  import opened DataSessions
  import opened DataCommandExtensions
  import StringConvert

  datatype CommandType = Text | StoredProcedure

  /** `DataCallback`: the callback (`handler`, a name the caller gives its
      delegate), the default of its declared type, and the parameter it
      reads, by its position in the command's parameter list. */
  datatype DataCallback = DataCallback(handler: nat, typeDefault: Obj, slot: nat)

  /** One callback invocation: which callback, with which value. */
  datatype Delivery = Delivery(handler: nat, value: Obj)

  /** `Type.Default()`: zero for the value types, null otherwise. */
  function DefaultOf(t: ClrType): Obj {
    match t
    case TInt32 => OInt(0)
    case TBoolean => OBool(false)
    case _ => ONull
  }

  /** `DataCallback.Invoke`: the parameter's current value, with `DBNull`
      replaced by the declared type's default.  A parameter that was never
      added to the command keeps its initial null. */
  function Invoke(cb: DataCallback, ps: seq<DbParameter>): (r: Obj)
    ensures cb.slot < |ps| && ps[cb.slot].value != ODBNull ==> r == ps[cb.slot].value
    ensures cb.slot < |ps| && ps[cb.slot].value == ODBNull ==> r == cb.typeDefault
    ensures cb.slot >= |ps| ==> r == ONull
  {
    var value := if cb.slot < |ps| then ps[cb.slot].value else ONull;
    if value == ODBNull then cb.typeDefault else value
  }

  /** Draining the queue: every callback once, in queue order. */
  function Deliveries(cbs: seq<DataCallback>, ps: seq<DbParameter>): (r: seq<Delivery>)
    ensures |r| == |cbs|
    ensures forall i :: 0 <= i < |cbs| ==> r[i] == Delivery(cbs[i].handler, Invoke(cbs[i], ps))
  {
    seq(|cbs|, i requires 0 <= i < |cbs| => Delivery(cbs[i].handler, Invoke(cbs[i], ps)))
  }

  lemma DeliveriesAppend(cbs: seq<DataCallback>, cb: DataCallback, ps: seq<DbParameter>)
    ensures Deliveries(cbs + [cb], ps) == Deliveries(cbs, ps) + [Delivery(cb.handler, Invoke(cb, ps))]
  {
  }

  /** The driver writes the values of the non-input parameters it answers. */
  function WithOutputs(ps: seq<DbParameter>, outputs: map<string, Obj>): (r: seq<DbParameter>)
    ensures |r| == |ps|
    ensures forall i :: 0 <= i < |ps| ==>
      r[i] == if ps[i].direction != Input && ps[i].name in outputs then ps[i].(value := outputs[ps[i].name]) else ps[i]
  {
    seq(|ps|, i requires 0 <= i < |ps| =>
      if ps[i].direction != Input && ps[i].name in outputs then ps[i].(value := outputs[ps[i].name]) else ps[i])
  }

  /** What `ExecuteCommand` comes to: the result, the session's counting
      state afterwards, and whether the callbacks fired. */
  datatype Run<T> = Run(result: Result<T, Exn>, session: SessionState, fired: bool)

  /** `ExecuteCommand` on a command that is not yet disposed.  On a disposed
      session both `EnsureConnection` and the `ReleaseConnection` of the
      `finally` block throw, and the second exception is the one that
      escapes. */
  function RunCommand<T>(sessionDisposed: bool, s: SessionState, open: Result<ConnectionState, Exn>, outcome: Result<T, Exn>,
                         text: string, database: string, ps: seq<DbParameter>): (r: Run<T>)
  {
    if sessionDisposed then Run(Failure(SessionDisposed()), s, false)
    else
      var (s1, e) := Ensure(s, open);
      if e.Failure? then Run(Failure(CreateDataException(text, database, ps, e.error)), Release(s1), false)
      else if outcome.Failure? then Run(Failure(CreateDataException(text, database, ps, outcome.error)), Release(s1), false)
      else Run(Success(outcome.value), Release(s1), true)
  }

  /** Callbacks fire exactly when the command succeeds, which needs a live
      session, an available connection and a successful action. */
  lemma RunFiresOnlyOnSuccess<T>(sessionDisposed: bool, s: SessionState, open: Result<ConnectionState, Exn>, outcome: Result<T, Exn>,
                                 text: string, database: string, ps: seq<DbParameter>)
    ensures var r := RunCommand(sessionDisposed, s, open, outcome, text, database, ps);
      (r.fired <==> r.result.Success?) &&
      (r.fired <==> !sessionDisposed && Ensure(s, open).1.Success? && outcome.Success?) &&
      (r.fired ==> r.result == Success(outcome.value))
  {
  }

  /** Whatever the action does, the connection request is released again:
      the counter is back where it was, and a connection the command had to
      open is closed. */
  lemma RunReleasesConnection<T>(s: SessionState, open: Result<ConnectionState, Exn>, outcome: Result<T, Exn>,
                                 text: string, database: string, ps: seq<DbParameter>)
    requires ValidState(s) && !(s.conn == Closed && open.Failure?)
    ensures var r := RunCommand(false, s, open, outcome, text, database, ps);
      r.session.count == s.count && ValidState(r.session) &&
      (s.conn == Closed && !s.sessionOpened ==> r.session == Idle)
  {
    RunSession(s, open, outcome, text, database, ps);
    EnsureThenRelease(s, open);
    StepsKeepValid(s, open);
    StepsKeepValid(Ensure(s, open).0, open);
  }

  /** On a live session the command ends holding the state `Release` leaves
      after `Ensure`, whatever the action does. */
  lemma RunSession<T>(s: SessionState, open: Result<ConnectionState, Exn>, outcome: Result<T, Exn>,
                      text: string, database: string, ps: seq<DbParameter>)
    ensures RunCommand(false, s, open, outcome, text, database, ps).session == Release(Ensure(s, open).0)
  {
  }

  /** A failure of the action is reported as a `DataException` naming the
      command, unless the command has no text. */
  lemma RunWrapsFailures<T>(s: SessionState, open: Result<ConnectionState, Exn>, outcome: Result<T, Exn>,
                            text: string, database: string, ps: seq<DbParameter>)
    requires Ensure(s, open).1.Success? && outcome.Failure? && text != "" && !outcome.error.kind.Aggregate?
    ensures var r := RunCommand(false, s, open, outcome, text, database, ps);
      r.result.Failure? && r.result.error.kind == DataError && r.result.error.inner == Some(outcome.error) &&
      EndsWith(r.result.error.message, CommandString(database, text, ps))
  {
    CreateDataExceptionMessage(text, database, ps, outcome.error);
  }

  function CommandDisposed(): Exn {
    Exceptions.Disposed("DataCommand")
  }

  class DataCommand {
    const session: DataSession
    const transaction: Option<Transaction>
    const database: string
    var commandText: string
    var commandType: CommandType
    var timeout: int
    var parameters: seq<DbParameter>
    var callbacks: seq<DataCallback>
    var invoked: seq<Delivery>
    var disposed: bool

    /** `new DataCommand(session, transaction)`: a fresh command on the
        session's connection. */
    constructor (session: DataSession, transaction: Option<Transaction>)
      ensures this.session == session && this.transaction == transaction && database == session.database
      ensures commandText == "" && commandType == Text && parameters == [] && callbacks == [] && invoked == [] && !disposed
    {
      this.session := session;
      this.transaction := transaction;
      database := session.database;
      commandText := "";
      commandType := Text;
      timeout := 30;
      parameters := [];
      callbacks := [];
      invoked := [];
      disposed := false;
    }

    /** `Sql(sql)` */
    method Sql(sql: string)
      modifies this
      ensures commandText == sql && commandType == Text
      ensures parameters == old(parameters) && callbacks == old(callbacks) && invoked == old(invoked) && disposed == old(disposed)
    {
      commandText := sql;
      commandType := Text;
    }

    /** `StoredProcedure(name)` */
    method StoredProcedure(name: string)
      modifies this
      ensures commandText == name && commandType == CommandType.StoredProcedure
      ensures parameters == old(parameters) && callbacks == old(callbacks) && invoked == old(invoked) && disposed == old(disposed)
    {
      commandText := name;
      commandType := CommandType.StoredProcedure;
    }

    /** `CommandTimeout(timeout)` */
    method CommandTimeout(seconds: int)
      modifies this
      ensures timeout == seconds
      ensures commandText == old(commandText) && parameters == old(parameters) && callbacks == old(callbacks)
      ensures invoked == old(invoked) && disposed == old(disposed)
    {
      timeout := seconds;
    }

    /** `Parameter(parameter)`: a null parameter is refused. */
    method Parameter(p: Option<DbParameter>) returns (r: Result<(), Exn>)
      modifies this
      ensures p.None? ==> r == Failure(Raise(ArgumentNull, "parameter")) && parameters == old(parameters)
      ensures p.Some? ==> r.Success? && parameters == old(parameters) + [p.value]
      ensures commandText == old(commandText) && commandType == old(commandType) && callbacks == old(callbacks) && invoked == old(invoked) && disposed == old(disposed)
    {
      if p.None? {
        return Failure(Raise(ArgumentNull, "parameter"));
      }
      parameters := parameters + [p.value];
      r := Success(());
    }

    /** `RegisterCallback(parameter, callback)`: queued at the back. */
    method RegisterCallback(cb: DataCallback)
      modifies this
      ensures callbacks == old(callbacks) + [cb]
      ensures commandText == old(commandText) && commandType == old(commandType) && parameters == old(parameters) && invoked == old(invoked) && disposed == old(disposed)
    {
      callbacks := callbacks + [cb];
    }

    /** `TriggerCallbacks`: the queue is drained from the front, each
        callback invoked once with its parameter's value. */
    method TriggerCallbacks()
      modifies this
      ensures callbacks == []
      ensures invoked == old(invoked) + Deliveries(old(callbacks), parameters)
      ensures commandText == old(commandText) && parameters == old(parameters) && disposed == old(disposed)
    {
      if |callbacks| == 0 {
        return;
      }
      ghost var queued := callbacks;
      ghost var k := 0;
      while |callbacks| > 0
        invariant 0 <= k <= |queued| && callbacks == queued[k..]
        invariant invoked == old(invoked) + Deliveries(queued[..k], parameters)
        invariant commandText == old(commandText) && parameters == old(parameters) && disposed == old(disposed)
        decreases |callbacks|
      {
        var cb := callbacks[0];
        callbacks := callbacks[1..];
        DeliveriesAppend(queued[..k], cb, parameters);
        assert queued[..k + 1] == queued[..k] + [cb];
        invoked := invoked + [Delivery(cb.handler, Invoke(cb, parameters))];
        k := k + 1;
      }
      assert queued[..k] == queued;
    }

    /** `Dispose` */
    method Dispose()
      modifies this
      ensures disposed
      ensures commandText == old(commandText) && parameters == old(parameters) && callbacks == old(callbacks) && invoked == old(invoked)
    {
      disposed := true;
    }

    /** `ExecuteCommand(action)`: a disposed command is refused before
        anything else.  Otherwise the connection is ensured, the action
        runs, and on success the driver's output values are read and the
        callbacks fire; a failure is rethrown through `CreateDataException`.
        In every case the connection is released and the command disposed. */
    method ExecuteCommand<T>(open: Result<ConnectionState, Exn>, outcome: Result<T, Exn>, outputs: map<string, Obj>)
      returns (r: Result<T, Exn>)
      requires session.Valid()
      modifies this, session
      ensures session.Valid()
      ensures old(disposed) ==> r == Failure(CommandDisposed()) && unchanged(this) && unchanged(session)
      ensures !old(disposed) ==>
        var run := RunCommand(old(session.disposed), old(session.State()), open, outcome, old(commandText), database, old(parameters));
        r == run.result && session.State() == run.session && disposed == !old(session.disposed) &&
        (run.fired ==> parameters == WithOutputs(old(parameters), outputs) && callbacks == [] &&
                       invoked == old(invoked) + Deliveries(old(callbacks), parameters)) &&
        (!run.fired ==> parameters == old(parameters) && callbacks == old(callbacks) && invoked == old(invoked))
      ensures session.transaction == old(session.transaction) && session.txEvents == old(session.txEvents)
      ensures session.disposed == old(session.disposed) && commandText == old(commandText)
    {
      if disposed {
        return Failure(CommandDisposed());
      }
      var pending, fired := Attempt(open, outcome, outputs);
      var released := session.ReleaseConnection();
      if released.Failure? {
        return Failure(released.error);
      }
      Dispose();
      r := pending;
    }

    /** The `try` block of `ExecuteCommand`: the connection is ensured and
        the action's outcome taken; only when both succeed are the outputs
        read and the callbacks fired. */
    method Attempt<T>(open: Result<ConnectionState, Exn>, outcome: Result<T, Exn>, outputs: map<string, Obj>)
      returns (pending: Result<T, Exn>, fired: bool)
      requires session.Valid()
      modifies this, session
      ensures session.Valid()
      ensures session.transaction == old(session.transaction) && session.txEvents == old(session.txEvents)
      ensures session.disposed == old(session.disposed) && commandText == old(commandText) && disposed == old(disposed)
      ensures old(session.disposed) ==> session.State() == old(session.State()) && !fired
      ensures !old(session.disposed) ==>
        var (s1, e) := Ensure(old(session.State()), open);
        session.State() == s1 && fired == (e.Success? && outcome.Success?) &&
        (e.Failure? ==> pending == Failure(CreateDataException(commandText, database, old(parameters), e.error))) &&
        (e.Success? && outcome.Failure? ==> pending == Failure(CreateDataException(commandText, database, old(parameters), outcome.error))) &&
        (fired ==> pending == Success(outcome.value))
      ensures fired ==> (parameters == WithOutputs(old(parameters), outputs) && callbacks == [] &&
        invoked == old(invoked) + Deliveries(old(callbacks), parameters))
      ensures !fired ==> parameters == old(parameters) && callbacks == old(callbacks) && invoked == old(invoked)
    {
      var e := session.EnsureConnection(open);
      fired := false;
      if e.Failure? {
        pending := Failure(CreateDataException(commandText, database, parameters, e.error));
      } else if outcome.Failure? {
        pending := Failure(CreateDataException(commandText, database, parameters, outcome.error));
      } else {
        ReadOutputs(outputs);
        pending := Success(outcome.value);
        fired := true;
      }
    }

    /** The success path of `ExecuteCommand`: the driver's output values are
        read into the parameters and the callbacks fire. */
    method ReadOutputs(outputs: map<string, Obj>)
      modifies this
      ensures parameters == WithOutputs(old(parameters), outputs) && callbacks == []
      ensures invoked == old(invoked) + Deliveries(old(callbacks), parameters)
      ensures commandText == old(commandText) && disposed == old(disposed)
    {
      parameters := WithOutputs(parameters, outputs);
      TriggerCallbacks();
    }

    /** `Execute()`: `ExecuteNonQuery`, whose affected-row count is `rows`. */
    method Execute(open: Result<ConnectionState, Exn>, rows: Result<int, Exn>, outputs: map<string, Obj>) returns (r: Result<int, Exn>)
      requires session.Valid()
      modifies this, session
      ensures session.Valid()
      ensures old(disposed) ==> r == Failure(CommandDisposed())
      ensures !old(disposed) ==>
        r == RunCommand(old(session.disposed), old(session.State()), open, rows, old(commandText), database, old(parameters)).result
      ensures disposed == (old(disposed) || !old(session.disposed)) && session.disposed == old(session.disposed)
    {
      r := ExecuteCommand(open, rows, outputs);
    }

    /** `Query(createEntity)`: one entity per row the reader returns, in order. */
    method Query<R, E>(createEntity: Option<R -> E>, open: Result<ConnectionState, Exn>, rows: Result<seq<R>, Exn>,
                       outputs: map<string, Obj>) returns (r: Result<seq<E>, Exn>)
      requires session.Valid()
      modifies this, session
      ensures session.Valid()
      ensures createEntity.None? ==> r == Failure(Raise(ArgumentNull, "createEntity")) && unchanged(this) && unchanged(session)
      ensures createEntity.Some? && old(disposed) ==> r == Failure(CommandDisposed())
      ensures r.Success? ==>
        (rows.Success? && |r.value| == |rows.value| &&
         forall i :: 0 <= i < |rows.value| ==> r.value[i] == createEntity.value(rows.value[i]))
      ensures createEntity.Some? && !old(disposed) ==>
        r.Success? == RunCommand(old(session.disposed), old(session.State()), open, rows, old(commandText), database, old(parameters)).fired
    {
      if createEntity.None? {
        return Failure(Raise(ArgumentNull, "createEntity"));
      }
      var f := createEntity.value;
      var entities: Result<seq<E>, Exn> :=
        if rows.Failure? then Failure(rows.error)
        else Success(seq(|rows.value|, i requires 0 <= i < |rows.value| => f(rows.value[i])));
      r := ExecuteCommand(open, entities, outputs);
      RunFiresOnlyOnSuccess(old(session.disposed), old(session.State()), open, entities, old(commandText), database, old(parameters));
      RunFiresOnlyOnSuccess(old(session.disposed), old(session.State()), open, rows, old(commandText), database, old(parameters));
    }

    /** `QuerySingle(createEntity)`: the entity of the first row, or null
        (`None`) when the reader has no row. */
    method QuerySingle<R, E>(createEntity: Option<R -> E>, open: Result<ConnectionState, Exn>, rows: Result<seq<R>, Exn>,
                             outputs: map<string, Obj>) returns (r: Result<Option<E>, Exn>)
      requires session.Valid()
      modifies this, session
      ensures session.Valid()
      ensures createEntity.None? ==> r == Failure(Raise(ArgumentNull, "createEntity")) && unchanged(this) && unchanged(session)
      ensures createEntity.Some? && old(disposed) ==> r == Failure(CommandDisposed())
      ensures r.Success? ==>
        (rows.Success? &&
         (rows.value == [] ==> r.value == None) &&
         (rows.value != [] ==> r.value == Some(createEntity.value(rows.value[0]))))
    {
      if createEntity.None? {
        return Failure(Raise(ArgumentNull, "createEntity"));
      }
      var f := createEntity.value;
      var first: Result<Option<E>, Exn> :=
        if rows.Failure? then Failure(rows.error)
        else if rows.value == [] then Success(None)
        else Success(Some(f(rows.value[0])));
      r := ExecuteCommand(open, first, outputs);
      RunFiresOnlyOnSuccess(old(session.disposed), old(session.State()), open, first, old(commandText), database, old(parameters));
    }

    /** `QueryValue(convert)`: `ExecuteScalar`, then `ConvertValue`; a
        failed conversion is a failure of the action. */
    method QueryValue<O, V>(open: Result<ConnectionState, Exn>, scalar: Result<O, Exn>, outputs: map<string, Obj>,
                            isNullOrDBNull: O -> bool, asValue: O -> Option<V>, convert: Option<O -> V>,
                            changeType: O -> Result<V, string>, default: V) returns (r: Result<V, Exn>)
      requires session.Valid()
      modifies this, session
      ensures session.Valid()
      ensures old(disposed) ==> r == Failure(CommandDisposed())
      ensures r.Success? ==>
        (scalar.Success? &&
         StringConvert.ConvertValue(scalar.value, isNullOrDBNull, asValue, convert, changeType, default) == Success(r.value))
    {
      var converted: Result<V, Exn> :=
        if scalar.Failure? then Failure(scalar.error)
        else match StringConvert.ConvertValue(scalar.value, isNullOrDBNull, asValue, convert, changeType, default)
          case Success(v) => Success(v)
          case Failure(m) => Failure(Raise(InvalidCast, m));
      r := ExecuteCommand(open, converted, outputs);
      RunFiresOnlyOnSuccess(old(session.disposed), old(session.State()), open, converted, old(commandText), database, old(parameters));
    }
  }

  /** A command runs at most once: a second execution is refused. */
  method ExecuteTwice(c: DataCommand, open: Result<ConnectionState, Exn>, rows: Result<int, Exn>, outputs: map<string, Obj>)
    returns (first: Result<int, Exn>, second: Result<int, Exn>)
    requires c.session.Valid() && !c.session.disposed
    modifies c, c.session
    ensures second == Failure(CommandDisposed())
  {
    first := c.Execute(open, rows, outputs);
    second := c.Execute(open, rows, outputs);
  }

  // ---- DataSession.CreateCommand / Sql / StoredProcedure ----

  /** `DataSession.CreateCommand()`: a command in the session transaction. */
  method CreateCommand(session: DataSession) returns (c: DataCommand)
    ensures fresh(c) && c.session == session && c.transaction == session.transaction
    ensures c.parameters == [] && c.callbacks == [] && c.invoked == [] && !c.disposed
  {
    c := new DataCommand(session, session.transaction);
  }

  /** `DataSession.StoredProcedure(name)` */
  method SessionStoredProcedure(session: DataSession, name: string) returns (c: DataCommand)
    ensures fresh(c) && c.session == session && c.transaction == session.transaction
    ensures c.commandText == name && c.commandType == CommandType.StoredProcedure
    ensures c.parameters == [] && c.callbacks == [] && c.invoked == [] && !c.disposed
  {
    c := CreateCommand(session);
    c.StoredProcedure(name);
  }

  /** `DataSession.Sql(sql)` */
  method SessionSql(session: DataSession, sql: string) returns (c: DataCommand)
    ensures fresh(c) && c.session == session && c.transaction == session.transaction
    ensures c.commandText == sql && c.commandType == Text
    ensures c.parameters == [] && c.callbacks == [] && c.invoked == [] && !c.disposed
  {
    c := CreateCommand(session);
    c.Sql(sql);
  }

  // ---- the parameter helpers of DataCommandExtensions ----

  /** `Parameter(parameters)`: each parameter in turn; a null one stops the
      loop with the earlier ones already added. */
  method AddParameters(c: DataCommand, ps: seq<Option<DbParameter>>) returns (r: Result<(), Exn>)
    modifies c
    ensures r.Success? <==> forall i :: 0 <= i < |ps| ==> ps[i].Some?
    ensures r.Success? ==> c.parameters == old(c.parameters) + seq(|ps|, i requires 0 <= i < |ps| && ps[i].Some? => ps[i].value)
    ensures r.Failure? ==>
      exists k :: (0 <= k < |ps| && ps[k].None? && (forall i :: 0 <= i < k ==> ps[i].Some?) &&
                   c.parameters == old(c.parameters) + seq(k, i requires 0 <= i < k && ps[i].Some? => ps[i].value))
    ensures c.callbacks == old(c.callbacks) && c.commandText == old(c.commandText) && c.commandType == old(c.commandType) && c.disposed == old(c.disposed)
  {
    for k := 0 to |ps|
      invariant forall i :: 0 <= i < k ==> ps[i].Some?
      invariant c.parameters == old(c.parameters) + seq(k, i requires 0 <= i < k && ps[i].Some? => ps[i].value)
      invariant c.callbacks == old(c.callbacks) && c.commandText == old(c.commandText) && c.commandType == old(c.commandType) && c.disposed == old(c.disposed)
    {
      var added := c.Parameter(ps[k]);
      if added.Failure? {
        return added;
      }
      assert seq(k + 1, i requires 0 <= i < k + 1 && ps[i].Some? => ps[i].value)
          == seq(k, i requires 0 <= i < k && ps[i].Some? => ps[i].value) + [ps[k].value];
    }
    r := Success(());
  }

  /** `Parameter<TParameter>(name, value)`: an input parameter. */
  method AddInput(c: DataCommand, name: string, value: Obj, declared: ClrType)
    modifies c
    ensures c.parameters == old(c.parameters) + [InputParameter(name, value, declared)]
    ensures c.callbacks == old(c.callbacks) && c.invoked == old(c.invoked)
    ensures c.commandText == old(c.commandText) && c.commandType == old(c.commandType) && c.disposed == old(c.disposed)
  {
    var _ := c.Parameter(Some(InputParameter(name, value, declared)));
  }

  /** `Parameter(name, object value)` */
  method AddInputObject(c: DataCommand, name: string, value: Obj)
    modifies c
    ensures c.parameters == old(c.parameters) + [InputObjectParameter(name, value)]
    ensures c.callbacks == old(c.callbacks) && c.invoked == old(c.invoked)
    ensures c.commandText == old(c.commandText) && c.commandType == old(c.commandType) && c.disposed == old(c.disposed)
  {
    var _ := c.Parameter(Some(InputObjectParameter(name, value)));
  }

  /** `ParameterOut<TParameter>(name, callback)`: the callback is queued for
      the parameter, which is then added. */
  method ParameterOut(c: DataCommand, name: string, declared: ClrType, handler: nat)
    modifies c
    ensures c.parameters == old(c.parameters) + [OutputParameter(name, declared)]
    ensures c.callbacks == old(c.callbacks) + [DataCallback(handler, DefaultOf(declared), |old(c.parameters)|)]
    ensures c.commandText == old(c.commandText) && c.commandType == old(c.commandType) && c.invoked == old(c.invoked) && c.disposed == old(c.disposed)
  {
    c.RegisterCallback(DataCallback(handler, DefaultOf(declared), |c.parameters|));
    var _ := c.Parameter(Some(OutputParameter(name, declared)));
  }

  /** `ParameterOut<TParameter>(name, value, callback)` */
  method ParameterInOut(c: DataCommand, name: string, value: Obj, declared: ClrType, handler: nat)
    modifies c
    ensures c.parameters == old(c.parameters) + [InputOutputParameter(name, value, declared)]
    ensures c.callbacks == old(c.callbacks) + [DataCallback(handler, DefaultOf(declared), |old(c.parameters)|)]
    ensures c.commandText == old(c.commandText) && c.commandType == old(c.commandType) && c.invoked == old(c.invoked) && c.disposed == old(c.disposed)
  {
    c.RegisterCallback(DataCallback(handler, DefaultOf(declared), |c.parameters|));
    var _ := c.Parameter(Some(InputOutputParameter(name, value, declared)));
  }

  /** `Return<TParameter>(callback)` */
  method Return(c: DataCommand, declared: ClrType, handler: nat)
    modifies c
    ensures c.parameters == old(c.parameters) + [ReturnParameter(declared)]
    ensures c.callbacks == old(c.callbacks) + [DataCallback(handler, DefaultOf(declared), |old(c.parameters)|)]
    ensures c.commandText == old(c.commandText) && c.commandType == old(c.commandType) && c.invoked == old(c.invoked) && c.disposed == old(c.disposed)
  {
    c.RegisterCallback(DataCallback(handler, DefaultOf(declared), |c.parameters|));
    var _ := c.Parameter(Some(ReturnParameter(declared)));
  }

  /** A callback registered by `ParameterOut` reads the value the driver
      wrote into its own parameter (or the type default for `DBNull`). */
  lemma OutputCallbackReadsItsParameter(ps: seq<DbParameter>, name: string, declared: ClrType, handler: nat,
                                        outputs: map<string, Obj>)
    requires name in outputs
    ensures var all := WithOutputs(ps + [OutputParameter(name, declared)], outputs);
      var cb := DataCallback(handler, DefaultOf(declared), |ps|);
      Invoke(cb, all) == if outputs[name] == ODBNull then DefaultOf(declared) else outputs[name]
  {
  }
}
