/** The errors the driver returns or accumulates, and the wrappers that carry them. */
module Errors {
  import opened Documents

  datatype Error =
    | NotOpened                     // AsEntity before any Open
    | RecordNotFound                // the ErrRecordNotFound sentinel
    | UpdateFailed                  // the ErrUpdateFailed sentinel
    | NoRecordsForFirst             // First found no record
    | DeleteNotFound(identifier: Doc)
    | ParseFailed(identity: string) // a backing file that is not valid JSON
    | WriteFailed(identity: string) // a backing file that cannot be written

  /** `None` stands for Go's nil error. */
  datatype Option<T> = None | Some(value: T)

  datatype Result<T> = Ok(value: T) | Err(error: Error)
}
