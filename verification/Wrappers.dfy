/** Result types shared by the modules, and the errors the library reports. */
module Wrappers {

  datatype Option<+T> = None | Some(value: T)

  /** The sentinel errors of the page package; ErrDriver stands for whatever the driver reports. */
  datatype Error =
    | ErrInvalidCursor
    | ErrCursorValue
    | ErrInvalidNulls
    | ErrAmbiguousSortField
    | ErrNoSQL
    | ErrNoTie
    | ErrInvalidColumn
    | ErrInvalidRequest
    | ErrInvalidSort
    | ErrUnknownSortField
    | ErrUnsortableModel
    | ErrDriver

  datatype Result<+T> = Ok(value: T) | Err(error: Error)
}
