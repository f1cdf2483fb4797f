/** The exceptions the access layer throws or passes on, as values: a kind,
    a message and the inner exception. */
module Exceptions {
  import opened Wrappers

  datatype ExnKind =
    | NullReference
    | ArgumentNull
    | Argument
    | Overflow                                             // OverflowException
    | ObjectDisposed
    | InvalidOperation
    | InvalidCast
    | Aggregate
    | DataError                                            // System.Data.DataException
    | DataUpdate                                           // DataUpdateException
    | Business(status: int, commandLog: string)           // DataVaultBusinessException; `status` is the raw enum value
    | EntityNotFound
    | InvalidLookup
    | JsonReader                                           // a JSON text that does not parse
    | Driver                                               // anything the database driver throws
    | General                                              // System.Exception itself

  datatype Exn = Exn(kind: ExnKind, message: string, inner: Option<Exn>)

  function Raise(kind: ExnKind, message: string): Exn {
    Exn(kind, message, None)
  }

  /** `AssertDisposed()` of the disposable base class. */
  function Disposed(objectName: string): Exn {
    Raise(ObjectDisposed, objectName)
  }
}
