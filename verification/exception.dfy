/**
 * The exceptions the engine raises.  A request error carries the id of the
 * request it answers (JSON null when none could be recovered); a notify error
 * carries none, since no reply is ever sent for a notification.  The client
 * raises response errors, which carry an int32 id when one was read.
 */
module Exceptions {
  import opened Json
  import opened RpcErrors

  datatype RpcException =
    | RequestException(err: ErrorKind, id: Value, detail: string)
    | NotifyException(err: ErrorKind, detail: string)

  /** A request error built without an id. */
  function RequestError(err: ErrorKind, detail: string): (e: RpcException)
    ensures e.RequestException? && e.id == Null
    ensures e.err == err && e.detail == detail
  {
    RequestException(err, Null, detail)
  }

  /** A request error built with an id: it carries a copy of that id. */
  function RequestErrorWithId(err: ErrorKind, id: Value, detail: string): (e: RpcException)
    ensures e.RequestException? && e.id == id
    ensures e.err == err && e.detail == detail
  {
    RequestException(err, id, detail)
  }

  /** `what()` of both server-side exceptions is the message of their error kind. */
  function What(e: RpcException): (text: string)
    ensures text == ErrorTable[Ordinal(e.err)].text
  {
    AsString(e.err)
  }

  datatype ResponseException = ResponseException(msg: string, hasId: bool, id: int32)

  /** A response error built without an id has no id, and -1 in its id slot. */
  function ResponseError(msg: string): (e: ResponseException)
    ensures !e.hasId && e.id == -1 && e.msg == msg
  {
    ResponseException(msg, false, -1)
  }

  function ResponseErrorWithId(msg: string, id: int32): (e: ResponseException)
    ensures e.hasId && e.id == id && e.msg == msg
  {
    ResponseException(msg, true, id)
  }

  datatype StubException = StubException(msg: string)
}
