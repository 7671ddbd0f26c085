/**
 * The error taxonomy: the five standard error kinds of section 5.1 of the
 * JSON-RPC 2.0 specification, with their codes and messages kept in one table.
 */
module RpcErrors {
  import opened Json

  datatype ErrorKind = ParseError | InvalidRequest | MethodNotFound | InvalidParams | InternalError

  datatype ErrorRow = ErrorRow(kind: ErrorKind, code: int32, text: string)

  /** One row per kind, in the declaration order of the enum. */
  const ErrorTable: seq<ErrorRow> := [
    ErrorRow(ParseError, -32700, "Parse error"),
    ErrorRow(InvalidRequest, -32600, "Invalid request"),
    ErrorRow(MethodNotFound, -32601, "Method not found"),
    ErrorRow(InvalidParams, -32602, "Invalid params"),
    ErrorRow(InternalError, -32603, "Internal error")
  ]

  /** The enum's underlying value, used to index the table. */
  function Ordinal(k: ErrorKind): (i: nat)
    ensures i < |ErrorTable|
  {
    match k
    case ParseError => 0
    case InvalidRequest => 1
    case MethodNotFound => 2
    case InvalidParams => 3
    case InternalError => 4
  }

  function AsCode(k: ErrorKind): (code: int32)
    ensures -32768 <= code <= -32000
  {
    ErrorTable[Ordinal(k)].code
  }

  function AsString(k: ErrorKind): (text: string)
    ensures |text| > 0
  {
    ErrorTable[Ordinal(k)].text
  }

  predicate IsErrorCode(code: int) {
    code in {-32700, -32600, -32601, -32602, -32603}
  }

  /** The reverse mapping; any other code is a failed assertion in the source. */
  function FromErrorCode(code: int32): (k: ErrorKind)
    requires IsErrorCode(code)
    ensures AsCode(k) == code
  {
    match code
    case -32700 => ParseError
    case -32600 => InvalidRequest
    case -32601 => MethodNotFound
    case -32602 => InvalidParams
    case -32603 => InternalError
  }

  /** The row read by AsCode and AsString for kind k is the row of k. */
  lemma TableRowOfKind(k: ErrorKind)
    ensures ErrorTable[Ordinal(k)].kind == k
    ensures AsCode(k) == ErrorTable[Ordinal(k)].code && AsString(k) == ErrorTable[Ordinal(k)].text
  {
  }

  /** The standard codes and messages. */
  lemma StandardCodes()
    ensures AsCode(ParseError) == -32700 && AsString(ParseError) == "Parse error"
    ensures AsCode(InvalidRequest) == -32600 && AsString(InvalidRequest) == "Invalid request"
    ensures AsCode(MethodNotFound) == -32601 && AsString(MethodNotFound) == "Method not found"
    ensures AsCode(InvalidParams) == -32602 && AsString(InvalidParams) == "Invalid params"
    ensures AsCode(InternalError) == -32603 && AsString(InternalError) == "Internal error"
  {
  }

  /** fromErrorCode inverts asCode, so distinct kinds have distinct codes. */
  lemma FromCodeInvertsAsCode(k: ErrorKind, k': ErrorKind)
    ensures IsErrorCode(AsCode(k)) && FromErrorCode(AsCode(k)) == k
    ensures AsCode(k) == AsCode(k') ==> k == k'
  {
  }
}
