/** Constants of the remctl protocol and limits of the server. */
module Protocol {
  import opened Bytes

  const MESSAGE_COMMAND: byte := 1
  const MESSAGE_QUIT: byte := 2
  const MESSAGE_OUTPUT: byte := 3
  const MESSAGE_STATUS: byte := 4
  const MESSAGE_ERROR: byte := 5
  const MESSAGE_VERSION: byte := 6
  const MESSAGE_NOOP: byte := 7

  const TOKEN_MAX_LENGTH: nat := 1024 * 1024
  const TOKEN_MAX_DATA: nat := 64 * 1024
  const TOKEN_MAX_OUTPUT: nat := TOKEN_MAX_DATA - 1 - 1 - 1 - 4

  const COMMAND_MAX_ARGS: nat := 4 * 1024
  const COMMAND_MAX_DATA: nat := 100 * 1024 * 1024

  /** Error codes, numbered by ErrorNumber as on the wire. */
  datatype ErrorCode =
    | Internal
    | BadToken
    | UnknownMessage
    | BadCommand
    | UnknownCommand
    | Access
    | TooManyArgs
    | TooMuchData
    | UnexpectedMessage
    | NoHelp

  function ErrorNumber(code: ErrorCode): (n: nat)
    ensures 1 <= n <= 10
  {
    match code
    case Internal => 1
    case BadToken => 2
    case UnknownMessage => 3
    case BadCommand => 4
    case UnknownCommand => 5
    case Access => 6
    case TooManyArgs => 7
    case TooMuchData => 8
    case UnexpectedMessage => 9
    case NoHelp => 10
  }
}
