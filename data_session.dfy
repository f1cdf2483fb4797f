/** `DataSession`: one database connection shared by the commands of a unit
    of work.  The session opens the connection on demand, counts the
    commands using it and closes it when the last one is done; it also holds
    the session transaction.  The connection itself is a state; what
    `Connection.Open()` and `Connection.BeginTransaction()` give is passed in. */
module DataSessions {
  import opened Wrappers
  import opened Exceptions

  /** `System.Data.ConnectionState` */
  datatype ConnectionState = Closed | Open | Connecting | Executing | Fetching | Broken

  function StateName(s: ConnectionState): string {
    match s
    case Closed => "Closed"
    case Open => "Open"
    case Connecting => "Connecting"
    case Executing => "Executing"
    case Fetching => "Fetching"
    case Broken => "Broken"
  }

  /** `System.Data.IsolationLevel` */
  datatype IsolationLevel =
    | Unspecified | Chaos | ReadUncommitted | ReadCommitted | RepeatableRead | Serializable | Snapshot

  /** A `DbTransaction`; `id` tells the transactions of a connection apart. */
  datatype Transaction = Transaction(id: nat, isolation: IsolationLevel)

  /** What happened to transactions, in order. */
  datatype TxEvent = Began(tx: Transaction) | Committed(tx: Transaction) | RolledBack(tx: Transaction) | Released(tx: Transaction)

  /** A `DbConnection` as handed to the session: its connection string (null
      is `None`), its database name and its state. */
  datatype Connection = Connection(connectionString: Option<string>, database: string, state: ConnectionState)

  /** The reference-counting part of a session: the connection state, whether
      the session opened the connection, and the request counter. */
  datatype SessionState = SessionState(conn: ConnectionState, sessionOpened: bool, count: int)

  /** The counter is never negative and is positive exactly while the session
      holds a connection it opened. */
  predicate ValidState(s: SessionState) {
    s.count >= 0 && (s.sessionOpened <==> s.count > 0)
  }

  function NotAvailable(s: ConnectionState): Exn {
    Raise(InvalidOperation, "Execution of the command requires an open and available connection. The connection's current state is "
      + StateName(s) + ".")
  }

  /** The check that ends `EnsureConnection`. */
  function Available(c: ConnectionState): Result<(), Exn> {
    if c == Closed || c == Broken then Failure(NotAvailable(c)) else Success(())
  }

  /** `EnsureConnection` on a live session: a closed connection is opened (by
      `open`, which may throw) and marked as opened by the session; a
      session-opened connection counts one more request; a connection that
      is then closed or broken is refused. */
  function Ensure(s: SessionState, open: Result<ConnectionState, Exn>): (r: (SessionState, Result<(), Exn>))
    ensures s.conn == Closed && open.Failure? ==> r == (s, Failure(open.error))
    ensures s.conn != Closed ==> r.0 == s.(count := if s.sessionOpened then s.count + 1 else s.count)
    ensures s.conn == Closed && open.Success? ==> r.0 == SessionState(open.value, true, s.count + 1)
  {
    if s.conn == Closed && open.Failure? then (s, Failure(open.error))
    else
      var s1 := if s.conn == Closed then SessionState(open.value, true, s.count) else s;
      var s2 := if s1.sessionOpened then SessionState(s1.conn, true, s1.count + 1) else s1;
      (s2, Available(s2.conn))
  }

  /** `EnsureConnection` succeeds exactly when the connection ends up
      neither closed nor broken; otherwise it reports the state it found. */
  lemma EnsureOutcome(s: SessionState, open: Result<ConnectionState, Exn>)
    requires !(s.conn == Closed && open.Failure?)
    ensures Ensure(s, open).1.Success? <==> Ensure(s, open).0.conn != Closed && Ensure(s, open).0.conn != Broken
    ensures Ensure(s, open).1.Failure? ==> Ensure(s, open).1.error == NotAvailable(Ensure(s, open).0.conn)
  {
  }

  /** `ReleaseConnection` on a live session. */
  function Release(s: SessionState): (r: SessionState)
    ensures !s.sessionOpened ==> r == s
    ensures s.sessionOpened && s.count > 1 ==> r == s.(count := s.count - 1)
    ensures s.sessionOpened && (s.count == 1 || s.count == 0) ==> r == SessionState(Closed, false, 0)
    ensures s.sessionOpened && s.count < 0 ==> r == s
  {
    if !s.sessionOpened then s
    else
      var c := if s.count > 0 then s.count - 1 else s.count;
      if c != 0 then s.(count := c) else s.(conn := Closed, sessionOpened := false, count := 0)
  }

  /** Both steps keep the counter consistent. */
  lemma StepsKeepValid(s: SessionState, open: Result<ConnectionState, Exn>)
    requires ValidState(s)
    ensures ValidState(Ensure(s, open).0)
    ensures ValidState(Release(s))
  {
  }

  /** A connection the session did not open (it was handed over open) is
      never counted and never closed by the session. */
  lemma ForeignConnectionUntouched(s: SessionState, open: Result<ConnectionState, Exn>)
    requires ValidState(s) && !s.sessionOpened && s.conn != Closed
    ensures Ensure(s, open).0 == s
    ensures Release(s) == s
  {
  }

  /** A release balances an ensure: the counter is back where it was, and a
      connection the session had to open is closed again. */
  lemma EnsureThenRelease(s: SessionState, open: Result<ConnectionState, Exn>)
    requires ValidState(s)
    requires !(s.conn == Closed && open.Failure?)
    ensures Release(Ensure(s, open).0).count == s.count
    ensures s.conn == Closed && !s.sessionOpened ==> Release(Ensure(s, open).0) == SessionState(Closed, false, 0)
    ensures s.sessionOpened && s.conn != Closed ==> Release(Ensure(s, open).0) == s
  {
  }

  /** `n` successive `EnsureConnection` calls, the first of which opens the connection. */
  function EnsureTimes(s: SessionState, n: nat): SessionState
    decreases n
  {
    if n == 0 then s else EnsureTimes(Ensure(s, Success(Open)).0, n - 1)
  }

  function ReleaseTimes(s: SessionState, n: nat): SessionState
    decreases n
  {
    if n == 0 then s else ReleaseTimes(Release(s), n - 1)
  }

  const Idle := SessionState(Closed, false, 0)

  lemma {:induction false} EnsureTimesCounts(n: nat, k: nat)
    requires k >= 1
    ensures EnsureTimes(SessionState(Open, true, k), n) == SessionState(Open, true, k + n)
  {
    if n > 0 {
      EnsureTimesCounts(n - 1, k + 1);
    }
  }

  lemma {:induction false} ReleaseTimesCounts(n: nat, k: nat)
    requires k <= n && n >= 1
    ensures ReleaseTimes(SessionState(Open, true, n), k)
         == if k < n then SessionState(Open, true, n - k) else SessionState(Closed, false, 0)
  {
    if k > 0 {
      if n == 1 {
        assert Release(SessionState(Open, true, 1)) == SessionState(Closed, false, 0);
        assert ReleaseTimes(SessionState(Closed, false, 0), k - 1) == SessionState(Closed, false, 0) by {
          ReleaseIdle(k - 1);
        }
      } else {
        ReleaseTimesCounts(n - 1, k - 1);
      }
    }
  }

  lemma {:induction false} ReleaseIdle(k: nat)
    ensures ReleaseTimes(Idle, k) == Idle
  {
    if k > 0 {
      ReleaseIdle(k - 1);
    }
  }

  /** `n` commands on an idle session: the connection is opened once and
      stays open through the first `n - 1` releases; the last one closes it. */
  lemma NestedUseClosesOnLastRelease(n: nat, k: nat)
    requires 1 <= n && k <= n
    ensures EnsureTimes(Idle, n) == SessionState(Open, true, n)
    ensures ReleaseTimes(EnsureTimes(Idle, n), k).conn == Closed <==> k == n
    ensures k == n ==> ReleaseTimes(EnsureTimes(Idle, n), k) == Idle
  {
    assert Ensure(Idle, Success(Open)).0 == SessionState(Open, true, 1);
    EnsureTimesCounts(n - 1, 1);
    ReleaseTimesCounts(n, k);
  }

  function SessionDisposed(): Exn {
    Exceptions.Disposed("DataSession")
  }

  /** `DataSession` */
  class DataSession {
    const connectionString: string
    const database: string
    const disposeConnection: bool
    var conn: ConnectionState
    var openedConnection: bool
    var requestCount: int
    var transaction: Option<Transaction>
    var txEvents: seq<TxEvent>
    var connectionDisposed: bool
    var disposed: bool

    function State(): SessionState
      reads this
    {
      SessionState(conn, openedConnection, requestCount)
    }

    predicate Valid()
      reads this
    {
      ValidState(State()) && (disposed ==> transaction.None?)
    }

    predicate IsInTransaction()
      reads this
    {
      transaction.Some?
    }

    /** The constructor once its argument checks have passed. */
    constructor (connection: Connection, disposeConnection: bool)
      requires connection.connectionString.Some? && connection.connectionString.value != ""
      ensures connectionString == connection.connectionString.value && database == connection.database
      ensures this.disposeConnection == disposeConnection
      ensures conn == connection.state && !openedConnection && requestCount == 0
      ensures transaction.None? && txEvents == [] && !connectionDisposed && !disposed
      ensures Valid()
    {
      connectionString := connection.connectionString.value;
      database := connection.database;
      this.disposeConnection := disposeConnection;
      conn := connection.state;
      openedConnection := false;
      requestCount := 0;
      transaction := None;
      txEvents := [];
      connectionDisposed := false;
      disposed := false;
    }

    /** `BeginTransaction`: only when there is no transaction yet does it
        ensure the connection and begin one (`begin`: what the connection
        answers); either way the session transaction is returned. */
    method BeginTransaction(isolation: IsolationLevel, open: Result<ConnectionState, Exn>, begin: Result<nat, Exn>)
      returns (r: Result<Transaction, Exn>)
      requires Valid()
      modifies this
      ensures Valid()
      ensures old(transaction).Some? ==> r == Success(old(transaction).value) && unchanged(this)
      ensures old(transaction).None? && old(disposed) ==> r == Failure(SessionDisposed()) && unchanged(this)
      ensures old(transaction).None? && !old(disposed) ==>
        State() == Ensure(old(State()), open).0 &&
        (Ensure(old(State()), open).1.Failure? ==> r == Failure(Ensure(old(State()), open).1.error) && transaction.None? && txEvents == old(txEvents)) &&
        (Ensure(old(State()), open).1.Success? && begin.Failure? ==> r == Failure(begin.error) && transaction.None? && txEvents == old(txEvents)) &&
        (Ensure(old(State()), open).1.Success? && begin.Success? ==>
          r == Success(Transaction(begin.value, isolation)) && transaction == Some(r.value) && txEvents == old(txEvents) + [Began(r.value)])
      ensures r.Success? ==> transaction == Some(r.value)
      ensures disposed == old(disposed)
    {
      if transaction.None? {
        var e := EnsureConnection(open);
        if e.Failure? {
          return Failure(e.error);
        }
        if begin.Failure? {
          return Failure(begin.error);
        }
        var tx := Transaction(begin.value, isolation);
        transaction := Some(tx);
        txEvents := txEvents + [Began(tx)];
      }
      r := Success(transaction.value);
    }

    /** `EnsureConnection` */
    method EnsureConnection(open: Result<ConnectionState, Exn>) returns (r: Result<(), Exn>)
      requires Valid()
      modifies this
      ensures Valid()
      ensures old(disposed) ==> r == Failure(SessionDisposed()) && unchanged(this)
      ensures !old(disposed) ==> (State(), r) == Ensure(old(State()), open)
      ensures transaction == old(transaction) && txEvents == old(txEvents) && disposed == old(disposed)
      ensures connectionDisposed == old(connectionDisposed)
    {
      if disposed {
        return Failure(SessionDisposed());
      }
      StepsKeepValid(State(), open);
      var next := Ensure(State(), open);
      conn, openedConnection, requestCount := next.0.conn, next.0.sessionOpened, next.0.count;
      r := next.1;
    }

    /** `ReleaseConnection` */
    method ReleaseConnection() returns (r: Result<(), Exn>)
      requires Valid()
      modifies this
      ensures Valid()
      ensures old(disposed) ==> r == Failure(SessionDisposed()) && unchanged(this)
      ensures !old(disposed) ==> r.Success? && State() == Release(old(State()))
      ensures transaction == old(transaction) && txEvents == old(txEvents) && disposed == old(disposed)
      ensures connectionDisposed == old(connectionDisposed)
    {
      if disposed {
        return Failure(SessionDisposed());
      }
      StepsKeepValid(State(), Success(Open));
      var next := Release(State());
      conn, openedConnection, requestCount := next.conn, next.sessionOpened, next.count;
      r := Success(());
    }

    /** `Dispose`: the transaction is released without a rollback, and an
        owned connection is closed if open and disposed.  A second call does
        nothing. */
    method Dispose()
      requires Valid()
      modifies this
      ensures Valid() && disposed
      ensures old(disposed) ==> unchanged(this)
      ensures !old(disposed) ==>
        transaction.None? &&
        txEvents == old(txEvents) + (if old(transaction).Some? then [Released(old(transaction).value)] else []) &&
        conn == (if disposeConnection && old(conn) == Open then Closed else old(conn)) &&
        connectionDisposed == (old(connectionDisposed) || disposeConnection) &&
        openedConnection == old(openedConnection) && requestCount == old(requestCount)
    {
      if disposed {
        return;
      }
      if transaction.Some? {
        txEvents := txEvents + [Released(transaction.value)];
        transaction := None;
      }
      if disposeConnection {
        if conn == Open {
          conn := Closed;
        }
        connectionDisposed := true;
      }
      disposed := true;
    }
  }

  /** `new DataSession(connection, disposeConnection)`: a null connection
      and an empty connection string are refused. */
  method NewDataSession(connection: Option<Connection>, disposeConnection: bool) returns (r: Result<DataSession, Exn>)
    ensures connection.None? ==> r == Failure(Raise(ArgumentNull, "connection"))
    ensures connection.Some? && (connection.value.connectionString.None? || connection.value.connectionString.value == "") ==>
      r == Failure(Raise(Argument, "Invalid connection string"))
    ensures r.Success? <==> connection.Some? && connection.value.connectionString.Some? && connection.value.connectionString.value != ""
    ensures r.Success? ==>
      fresh(r.value) && r.value.Valid() && r.value.State() == SessionState(connection.value.state, false, 0) &&
      r.value.transaction.None? && !r.value.disposed && r.value.disposeConnection == disposeConnection
  {
    if connection.None? {
      return Failure(Raise(ArgumentNull, "connection"));
    }
    if connection.value.connectionString.None? || connection.value.connectionString.value == "" {
      return Failure(Raise(Argument, "Invalid connection string"));
    }
    var s := new DataSession(connection.value, disposeConnection);
    r := Success(s);
  }

  /** `BeginTransaction` twice gives the same transaction and begins only one. */
  method BeginTwice(s: DataSession, isolation: IsolationLevel, open: Result<ConnectionState, Exn>, begin1: Result<nat, Exn>, begin2: Result<nat, Exn>)
    returns (first: Result<Transaction, Exn>, second: Result<Transaction, Exn>)
    requires s.Valid()
    modifies s
    ensures first.Success? ==> second == first
    ensures first.Success? ==> s.txEvents == old(s.txEvents) + (if old(s.transaction).None? then [Began(first.value)] else [])
  {
    first := s.BeginTransaction(isolation, open, begin1);
    second := s.BeginTransaction(isolation, open, begin2);
  }
}
