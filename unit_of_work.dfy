/** `UnitOfWork`: one repository per entity type, created on first request
    and handed out again afterwards, over one data-vault context; completing
    the unit saves the context's changes.

    The repositories are kept in one dictionary keyed by type, hub and link
    repositories together.  Completing and disposing act on the context's
    `DataContext` part, `context.store`. */
module UnitsOfWork {
  import opened Wrappers
  import opened Exceptions
  import opened Json
  import opened EntityHelper
  import opened EntityExtensions
  import opened DataVaultContexts
  import opened HubRepositories
  import opened LinkRepositories

  /** An entry of the repository dictionary. */
  datatype RepositoryRef = HubRepo(hub: HubRepository) | LinkRepo(link: LinkRepository)

  /** The cast `(IHubRepository<T>)` / `(ILinkRepository<T>)` of an entry of the other kind. */
  function BadCast(t: TypeInfo): Exn {
    Raise(ExnKind.InvalidCast, "Unable to cast the repository of " + t.name)
  }

  class UnitOfWork {
    /** The `DataVaultContext` property. */
    var context: DataVaultContext
    const serialize: Record -> Json
    var repositories: map<TypeInfo, RepositoryRef>
    var isCompleted: bool
    var disposed: bool

    /** `new UnitOfWork(context)`: no repository yet, not completed. */
    constructor (context: DataVaultContext, serialize: Record -> Json)
      ensures this.context == context && this.serialize == serialize
      ensures repositories == map[] && !isCompleted && !disposed
    {
      this.context := context;
      this.serialize := serialize;
      repositories := map[];
      isCompleted := false;
      disposed := false;
    }

    /** `GetHubRepository<T>()`: the repository made for `t` the first time,
        on the current context; the same one on every later call. */
    method GetHubRepository(t: TypeInfo) returns (r: Result<HubRepository, Exn>)
      modifies this
      ensures context == old(context) && isCompleted == old(isCompleted) && disposed == old(disposed)
      ensures t in old(repositories) ==> repositories == old(repositories)
      ensures t in old(repositories) && old(repositories)[t].HubRepo? ==> r == Success(old(repositories)[t].hub)
      ensures t in old(repositories) && old(repositories)[t].LinkRepo? ==> r == Failure(BadCast(t))
      ensures t !in old(repositories) ==>
        r.Success? && fresh(r.value) && r.value.Valid() &&
        r.value.context == context && r.value.entity == t && r.value.serialize == serialize &&
        repositories == old(repositories)[t := HubRepo(r.value)]
    {
      if t !in repositories {
        var repo := new HubRepository(context, t, serialize);
        repositories := repositories[t := HubRepo(repo)];
      }
      var entry := repositories[t];
      if entry.LinkRepo? {
        return Failure(BadCast(t));
      }
      r := Success(entry.hub);
    }

    /** `GetLinkRepository<T>()`: the same for link types. */
    method GetLinkRepository(t: TypeInfo) returns (r: Result<LinkRepository, Exn>)
      modifies this
      ensures context == old(context) && isCompleted == old(isCompleted) && disposed == old(disposed)
      ensures t in old(repositories) ==> repositories == old(repositories)
      ensures t in old(repositories) && old(repositories)[t].LinkRepo? ==> r == Success(old(repositories)[t].link)
      ensures t in old(repositories) && old(repositories)[t].HubRepo? ==> r == Failure(BadCast(t))
      ensures t !in old(repositories) ==>
        r.Success? && fresh(r.value) && r.value.Valid() &&
        r.value.context == context && r.value.entity == t && r.value.serialize == serialize &&
        repositories == old(repositories)[t := LinkRepo(r.value)]
    {
      if t !in repositories {
        var repo := new LinkRepository(context, t, serialize);
        repositories := repositories[t := LinkRepo(repo)];
      }
      var entry := repositories[t];
      if entry.HubRepo? {
        return Failure(BadCast(t));
      }
      r := Success(entry.link);
    }

    /** Setting the `DataVaultContext` property: repositories already made
        keep the context they were made with. */
    method SetContext(c: DataVaultContext)
      modifies this
      ensures context == c && repositories == old(repositories)
      ensures isCompleted == old(isCompleted) && disposed == old(disposed)
    {
      context := c;
    }

    /** `Complete()`: the changes are saved, and only when saving succeeds is
        the unit marked completed. */
    method Complete(commit: Option<Exn>, rollback: Option<Exn>) returns (r: Result<(), Exn>)
      requires context.store.session.Valid()
      modifies this, context.store.session
      ensures context.store.session.Valid()
      ensures isCompleted == (old(isCompleted) || r.Success?)
      ensures r.Success? <==> (!(context.store.created && old(context.store.session.transaction).Some?) || commit.None?)
      ensures context.store.session.transaction.None? || context.store.session.transaction == old(context.store.session.transaction)
      ensures context == old(context) && repositories == old(repositories) && disposed == old(disposed)
    {
      r := context.store.SaveChanges(commit, rollback);
      if r.Success? {
        isCompleted := true;
      }
    }

    /** `Dispose()`: the repositories are forgotten and the context disposed;
        a second call does nothing. */
    method Dispose()
      requires context.store.session.Valid()
      modifies this, context.store, context.store.session
      ensures context == old(context) && isCompleted == old(isCompleted)
      ensures context.store.session.Valid() && disposed
      ensures !old(disposed) ==> repositories == map[] && context.store.disposed
      ensures !old(disposed) && !old(context.store.disposed) && old(context.store.created) ==> context.store.session.disposed
      ensures old(disposed) ==> repositories == old(repositories) && unchanged(context.store, context.store.session)
    {
      if disposed {
        return;
      }
      repositories := map[];
      context.store.Dispose();
      disposed := true;
    }
  }

  /** Asking twice for the repository of one hub type gives the same object. */
  method SameHubRepositoryTwice(uow: UnitOfWork, t: TypeInfo) returns (first: Result<HubRepository, Exn>, second: Result<HubRepository, Exn>)
    requires t !in uow.repositories || uow.repositories[t].HubRepo?
    modifies uow
    ensures first.Success? && second == first
  {
    first := uow.GetHubRepository(t);
    second := uow.GetHubRepository(t);
  }
}
