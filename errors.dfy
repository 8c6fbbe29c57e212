/** Optional values, results and the exceptions the migration tracker raises or lets through. */
module Errors {

  datatype Option<+T> = None | Some(value: T)

  /** A field that a changeset file failed to define. */
  datatype Field = Order | Setup | Teardown | CreatedAt

  /** Why a statement on the tracking table itself failed. */
  datatype TableProblem =
    | Missing       // the table does not exist
    | AlreadyExists // it was to be created but exists
    | OutOfRange    // a value does not fit its integer column
    | NullValue     // a row lacks a value for a column that must have one

  /** The exceptions of the tracker, as values. */
  datatype Error =
    | NotInitialized                            // the tracking table does not exist
    | InvalidChangesetFile(missing: Field)      // a changeset file lacks one of its four fields
    | ValueError(message: string)               // a duplicate apply, a missing revert, a bad argument
    | SqlError(statement: string)               // the database refused a changeset's SQL
    | TrackingTableError(problem: TableProblem) // a statement on the tracking table failed
    | NotOpened                                 // the adapter was never opened: it has no connection
    | ConnectionClosed                          // the adapter's connection has been closed
    | TypeError                                 // `None` iterated as a list, or compared

  /** A value, or the exception raised instead of returning it. */
  datatype Result<+T> = Ok(value: T) | Err(error: Error)

  /** Normal return of a procedure that returns nothing, or the exception it raised. */
  datatype Outcome = Pass | Fail(error: Error)
}
