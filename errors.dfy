/** The error codes of the tool and the error value that carries one with
    its argument (the text substituted into the message template). */
module Errors {

  datatype ErrorType =
    | E_NO_ERROR
    | E_TOO_LESS_ARGUMENTS
    | E_FILE_NOT_EXIST
    | E_DIR_NOT_EXIST
    | E_UNKNOWN_OPTION
    | E_TOO_MANY_INPUT
    | E_FILE_ERROR
    | E_FINISH

  /** The process exit code of each error: its position in the enum. */
  function Code(e: ErrorType): (n: nat)
    ensures n < 8
    ensures n == 0 <==> e == E_NO_ERROR
  {
    match e
    case E_NO_ERROR => 0
    case E_TOO_LESS_ARGUMENTS => 1
    case E_FILE_NOT_EXIST => 2
    case E_DIR_NOT_EXIST => 3
    case E_UNKNOWN_OPTION => 4
    case E_TOO_MANY_INPUT => 5
    case E_FILE_ERROR => 6
    case E_FINISH => 7
  }

  /** `error_state`: the code and the text that names what went wrong. */
  datatype ErrorState = ErrorState(e: ErrorType, w: string)

  /** The error every failing open inside the expander reports. */
  function FileError(rootName: string): (err: ErrorState)
    ensures err.e == E_FILE_ERROR
    ensures |err.w| >= |rootName| && err.w[|err.w| - |rootName|..] == rootName
  {
    ErrorState(E_FILE_ERROR, "Cannot open file " + rootName)
  }
}
