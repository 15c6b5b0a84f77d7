/** Failure values shared by every driver. */
module Errors {

  datatype Option<+T> = None | Some(value: T)

  /** Where in the driver pipeline a fault was observed. */
  datatype Phase = Unspecified | Init | CommandSend | ResponseWait | DataWrite | DataRead | BusyWait | Switching | Erase

  datatype ErrorContext = ErrorContext(phase: Phase, cmd: Option<nat>)

  function At(phase: Phase): ErrorContext { ErrorContext(phase, None) }

  function ForCmd(phase: Phase, cmd: nat): ErrorContext { ErrorContext(phase, Some(cmd)) }

  datatype Error =
    | Timeout(ctx: ErrorContext)
    | CrcMismatch(ctx: ErrorContext)
    | NoCard
    | UnsupportedCommand
    | BadResponse(ctx: ErrorContext)
    | IllegalCommand
    | WriteError(ctx: ErrorContext)
    | ReadError(ctx: ErrorContext)
    | Misaligned
    | InvalidArgument
    | CardLocked
    | BusError(ctx: ErrorContext)

  datatype Result<+T> = Ok(value: T) | Err(error: Error)
}
