/** Failure-carrying wrappers and the error taxonomy of the startup manager
    (src/shared/error.rs). Only the variants are modelled, not their display texts. */
module Shared {

  datatype Option<T> = None | Some(value: T)

  /** The errors every operation of the tool can surface. `IoError` wraps the
      description of a failed file-system call. */
  datatype StartupError =
    | PathNotFound(path: string)
    | DirectoryNotFound(dir: string)
    | NotADirectory(path: string)
    | InvalidName(reason: string)
    | EntryNotFound(name: string)
    | RegistryError(message: string)
    | IoError(detail: string)

  /** `Result<T, StartupError>` of the source; `Result<()>` is written with the unit type. */
  datatype Result<T> = Ok(value: T) | Err(error: StartupError)
}
