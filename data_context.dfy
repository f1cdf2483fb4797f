/** `DataContext`: the unit-of-work face of a lazily created `DataSession`.
    Committing ends the session transaction and gives back the connection
    request its `BeginTransaction` made; disposing the context disposes the
    session only if it was ever created.

    The lazy session is the session its factory would create (`session`)
    with a flag telling whether it has been created; how the driver answers
    `Commit()` and `Rollback()` is passed in (`None`: no exception). */
module DataContexts {
  import opened Wrappers
  import opened Exceptions
  import opened DataSessions

  const UpdateFailedMessage := "Error occurs when update data vault."

  class DataContext {
    const session: DataSession
    var created: bool
    var disposed: bool

    /** `new DataContext(lazySession)`: nothing is created yet. */
    constructor (session: DataSession)
      ensures this.session == session && !created && !disposed
    {
      this.session := session;
      created := false;
      disposed := false;
    }

    /** The `DataSession` property: reading it creates the session. */
    method GetSession() returns (s: DataSession)
      modifies this
      ensures s == session && created && disposed == old(disposed)
    {
      created := true;
      s := session;
    }

    /** `BeginTransaction(isolationLevel)` on the (now created) session. */
    method BeginTransaction(isolation: IsolationLevel, open: Result<ConnectionState, Exn>, begin: Result<nat, Exn>)
      returns (r: Result<(), Exn>)
      requires session.Valid()
      modifies this, session
      ensures session.Valid() && created && disposed == old(disposed)
      ensures r.Success? ==> session.IsInTransaction()
      ensures old(session.transaction).Some? ==> r.Success? && unchanged(session)
      ensures old(session.transaction).None? && !old(session.disposed) && Ensure(old(session.State()), open).1.Success? ==>
        (r.Success? <==> begin.Success?) &&
        session.State() == Ensure(old(session.State()), open).0 &&
        (begin.Success? ==>
           session.transaction == Some(Transaction(begin.value, isolation)) &&
           session.txEvents == old(session.txEvents) + [Began(Transaction(begin.value, isolation))])
      ensures old(session.transaction).None? && !old(session.disposed) && Ensure(old(session.State()), open).1.Failure? ==>
        r == Failure(Ensure(old(session.State()), open).1.error) && session.transaction.None? &&
        session.State() == Ensure(old(session.State()), open).0 && session.txEvents == old(session.txEvents)
      ensures old(session.transaction).None? && !old(session.disposed) && Ensure(old(session.State()), open).1.Success? && begin.Failure? ==>
        r == Failure(begin.error) && session.transaction.None? && session.txEvents == old(session.txEvents)
      ensures old(session.transaction).None? && old(session.disposed) ==> r == Failure(SessionDisposed()) && unchanged(session)
      ensures session.disposed == old(session.disposed)
    {
      created := true;
      var tx := session.BeginTransaction(isolation, open, begin);
      if tx.Failure? {
        return Failure(tx.error);
      }
      r := Success(());
    }

    /** `SaveChanges()`: when the session was created and is in a
        transaction, the transaction is committed; if that fails it is rolled
        back and the failure is reported as a `DataUpdateException` (a
        failing rollback replaces it).  Either way the transaction is then
        released and dropped and the connection request released. */
    method SaveChanges(commit: Option<Exn>, rollback: Option<Exn>) returns (r: Result<(), Exn>)
      requires session.Valid()
      modifies session
      ensures session.Valid()
      ensures !(created && old(session.transaction).Some?) ==> r.Success? && unchanged(session)
      ensures created && old(session.transaction).Some? ==>
        var tx := old(session.transaction).value;
        session.transaction.None? &&
        session.State() == Release(old(session.State())) &&
        (commit.None? ==>
           r.Success? && session.txEvents == old(session.txEvents) + [Committed(tx), Released(tx)]) &&
        (commit.Some? && rollback.None? ==>
           r == Failure(Exn(DataUpdate, UpdateFailedMessage, Some(commit.value))) &&
           session.txEvents == old(session.txEvents) + [RolledBack(tx), Released(tx)]) &&
        (commit.Some? && rollback.Some? ==>
           r == Failure(rollback.value) && session.txEvents == old(session.txEvents) + [Released(tx)])
      ensures session.disposed == old(session.disposed)
    {
      if !(created && session.transaction.Some?) {
        return Success(());
      }
      var tx := session.transaction.value;
      if commit.None? {
        session.txEvents := session.txEvents + [Committed(tx)];
        r := Success(());
      } else if rollback.None? {
        session.txEvents := session.txEvents + [RolledBack(tx)];
        r := Failure(Exn(DataUpdate, UpdateFailedMessage, Some(commit.value)));
      } else {
        r := Failure(rollback.value);
      }
      session.txEvents := session.txEvents + [Released(tx)];
      session.transaction := None;
      var released := session.ReleaseConnection();
      assert released.Success?;
    }

    /** `Dispose()`: the session is disposed only if it was created; a
        second call does nothing. */
    method Dispose()
      requires session.Valid()
      modifies this, session
      ensures session.Valid() && disposed && created == old(created)
      ensures old(disposed) || !old(created) ==> unchanged(session)
      ensures !old(disposed) && old(created) ==> session.disposed
    {
      if disposed {
        return;
      }
      if created {
        session.Dispose();
      }
      disposed := true;
    }
  }

  /** A transaction begun through the context and saved gives its connection
      request back: the session's counter is where it started, the session
      is out of transaction, and the transaction began and ended once. */
  method BeginThenSave(c: DataContext, isolation: IsolationLevel, open: Result<ConnectionState, Exn>, id: nat,
                       commit: Option<Exn>, rollback: Option<Exn>)
    returns (begun: Result<(), Exn>, saved: Result<(), Exn>)
    requires c.session.Valid() && !c.session.disposed && c.session.transaction.None?
    requires !(c.session.conn == Closed && open.Failure?)
    modifies c, c.session
    ensures begun.Success? <==> Ensure(old(c.session.State()), open).1.Success?
    ensures begun.Success? ==>
      c.session.transaction.None? && c.session.requestCount == old(c.session.requestCount) &&
      (commit.None? <==> saved.Success?) &&
      |c.session.txEvents| >= |old(c.session.txEvents)| + 2 &&
      c.session.txEvents[|old(c.session.txEvents)|] == Began(Transaction(id, isolation)) &&
      c.session.txEvents[|c.session.txEvents| - 1] == Released(Transaction(id, isolation))
  {
    begun := c.BeginTransaction(isolation, open, Success(id));
    if begun.Failure? {
      saved := Success(());
      return;
    }
    EnsureThenRelease(old(c.session.State()), open);
    saved := c.SaveChanges(commit, rollback);
  }
}
