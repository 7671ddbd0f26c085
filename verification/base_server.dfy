/**
 * The protocol-independent half of the server: the decoder loop that cuts
 * the receive buffer into frames and hands each to the protocol's handler
 * (`convert().handleRequest`), the error response built from a request
 * exception, and the filter applied to what a handled frame delivers (null
 * values are never sent).
 */
module BaseServer {
  import opened Results
  import opened Json
  import opened RpcErrors
  import opened Exceptions
  import opened Framing

  /**
   * `wrapException`: the error response for a request exception, echoing its
   * id. The `error` member is an object holding code, message and data; the
   * source creates it from the object type tag cast to `int`, which is read
   * here as the empty object it evidently means.
   */
  function WrapException(e: RpcException): (response: Value)
    requires e.RequestException?
  {
    Object([
      Member("jsonrpc", String("2.0")),
      Member("error", Object([
        Member("code", Int32(AsCode(e.err))),
        Member("message", String(AsString(e.err))),
        Member("data", String(e.detail))])),
      Member("id", e.id)])
  }

  /**
   * The shape of an error response: a version-2.0 object with an `error`
   * object (the standard code and message of the error kind, and the
   * detail as data) and the exception's id, and no `result`.
   */
  lemma WrapExceptionShape(e: RpcException)
    requires e.RequestException?
    ensures var response := WrapException(e);
            && response.Object? && Size(response) == 3
            && FindMember(response, "jsonrpc") == Some(String("2.0"))
            && FindMember(response, "id") == Some(e.id)
            && !HasMember(response, "result")
            && HasMember(response, "error")
    ensures var error := FindMember(WrapException(e), "error").value;
            && error.Object? && Size(error) == 3
            && FindMember(error, "code") == Some(Int32(AsCode(e.err)))
            && FindMember(error, "message") == Some(String(AsString(e.err)))
            && FindMember(error, "data") == Some(String(e.detail))
  {
    var ms := WrapException(e).members;
    var fields := ms[1].value.members;
    assert KeyIndex(fields[2..], "data") == Some(0);
    assert KeyIndex(fields[1..], "data") == Some(1);
    assert KeyIndex(fields[1..], "message") == Some(0);
    assert KeyIndex(ms[2..], "id") == Some(0);
    assert KeyIndex(ms[1..], "id") == Some(1);
    assert KeyIndex(ms[1..], "error") == Some(0);
  }

  /** What the per-frame completion callback sends: every non-null response, in order. */
  function NonNull(responses: seq<Value>): (sent: seq<Value>)
    ensures |sent| <= |responses|
    ensures forall v :: v in sent <==> v in responses && v != Null
  {
    if |responses| == 0 then []
    else if responses[0].Null? then NonNull(responses[1..])
    else [responses[0]] + NonNull(responses[1..])
  }

  lemma {:induction false} NonNullAppend(a: seq<Value>, b: seq<Value>)
    ensures NonNull(a + b) == NonNull(a) + NonNull(b)
  {
    if |a| > 0 {
      assert (a + b)[1..] == a[1..] + b;
      NonNullAppend(a[1..], b);
    } else {
      assert a + b == b;
    }
  }

  /**
   * `sendResponse`: a serialised response framed for the wire, its length
   * header counting the trailing CR LF; the client's decoder takes it back
   * whole when it is within the client's limit.
   */
  function SendResponse(serialize: Value -> seq<byte>, response: Value): (message: seq<byte>)
    ensures |serialize(response)| + 2 < ClientMaxMessageLen ==>
              ClientStep(message) == Frame(|message|, serialize(response) + CRLF)
  {
    var body := serialize(response);
    assert |body| + 2 < ClientMaxMessageLen ==> ClientStep(Encode(body)) == Frame(|Encode(body)|, body + CRLF) by {
      if |body| + 2 < ClientMaxMessageLen {
        ClientDecodesEncoded(body, []);
        assert Encode(body) + [] == Encode(body);
      }
    }
    Encode(body)
  }

  /** The result of the server's decoder loop over some readable bytes. */
  datatype Session = Session(delivered: seq<Value>, consumed: nat, error: Option<RpcException>)

  /**
   * The protocol server's `handleRequest` on one frame's bytes: the values it
   * hands to the completion callback, or the exception that escapes it.
   */
  type Handler = seq<byte> -> Result<seq<Value>, RpcException>

  /**
   * The decoder loop of `handleMessage` over the readable bytes `r`, as a
   * specification: the values delivered frame by frame, the bytes dropped
   * from the buffer, and the exception that ended the loop, if any.
   */
  function ServerLoop(handle: Handler, r: seq<byte>): (s: Session)
    ensures s.consumed <= |r|
    ensures ServerStep(r).Fail? ==> s == Session([], 0, Some(ServerStep(r).error))
    ensures ServerStep(r).Stop? ==> s == Session([], ServerStep(r).consumed, None)
    decreases |r|
  {
    match ServerStep(r)
    case Stop(n) => Session([], n, None)
    case Fail(n, e) => Session([], n, Some(e))
    case Frame(n, json) =>
      match handle(json)
      case Err(e) => Session([], n, Some(e))
      case Ok(out) =>
        var rest := ServerLoop(handle, r[n..]);
        Session(out + rest.delivered, n + rest.consumed, rest.error)
  }

  /** A frame written with the length-prefixed framing is handled whole, and the loop resumes right after it. */
  lemma ServerLoopEncoded(handle: Handler, body: seq<byte>, rest: seq<byte>)
    requires |body| + 2 <= ServerMaxMessageLen
    ensures var n := |Encode(body)|;
            var tail := ServerLoop(handle, rest);
            ServerLoop(handle, Encode(body) + rest) ==
              match handle(body + CRLF)
              case Err(e) => Session([], n, Some(e))
              case Ok(out) => Session(out + tail.delivered, n + tail.consumed, tail.error)
  {
    ServerDecodesEncoded(body, rest);
    assert (Encode(body) + rest)[|Encode(body)|..] == rest;
  }

  /** One loop turn on a frame the handler accepts: its values come first, then those of the rest of the bytes. */
  lemma ServerLoopFrame(handle: Handler, r: seq<byte>)
    requires ServerStep(r).Frame? && handle(ServerStep(r).json).Ok?
    ensures var n := ServerStep(r).consumed;
            var rest := ServerLoop(handle, r[n..]);
            ServerLoop(handle, r) == Session(handle(ServerStep(r).json).value + rest.delivered, n + rest.consumed, rest.error)
  {
  }

  /**
   * One turn of `handleMessage`: leave at an incomplete frame or a bare
   * CR LF, raise on a bad header, or hand one frame to the protocol. What the
   * turn delivered, followed by what the loop does from there on (when it
   * goes on), is what the loop does from the old buffer.
   */
  method HandleMessageTurn(handle: Handler, buffer: Buffer) returns (more: bool, out: seq<Value>, error: Option<RpcException>)
    requires buffer.Valid()
    modifies buffer
    ensures buffer.Valid()
    ensures var k := |old(buffer.Readable())| - |buffer.Readable()|;
            var s := ServerLoop(handle, old(buffer.Readable()));
            var rest := ServerLoop(handle, buffer.Readable());
            && |buffer.Readable()| <= |old(buffer.Readable())|
            && buffer.Readable() == old(buffer.Readable())[k..]
            && (more ==> k > 0 && error.None? && s == Session(out + rest.delivered, k + rest.consumed, rest.error))
            && (!more ==> s == Session(out, k, error))
  {
    var readable := buffer.Readable();
    var step := ServerStep(readable);
    if step.Stop? {
      buffer.Retrieve(step.consumed);
      return false, [], None;
    } else if step.Fail? {
      return false, [], Some(step.error);
    }
    var handled := HandleFrame(handle, buffer);
    if handled.Err? {
      return false, [], Some(handled.error);
    }
    ServerLoopFrame(handle, readable);
    return true, handled.value, None;
  }

  /**
   * `handleMessage`: decode and handle every complete frame in the buffer,
   * sending each non-null delivered value as soon as it is produced. The
   * loop leaves at the first incomplete frame or bare CR LF, and an
   * exception from the header check or from the handler ends it.
   */
  method HandleMessage(handle: Handler, buffer: Buffer) returns (sent: seq<Value>, error: Option<RpcException>)
    requires buffer.Valid()
    modifies buffer
    ensures buffer.Valid()
    ensures var s := ServerLoop(handle, old(buffer.Readable()));
            && sent == NonNull(s.delivered)
            && error == s.error
            && buffer.Readable() == old(buffer.Readable())[s.consumed..]
  {
    ghost var r0 := buffer.Readable();
    ghost var total := ServerLoop(handle, r0);
    ghost var taken: nat := 0;
    ghost var delivered: seq<Value> := [];
    sent := [];
    error := None;
    var more := true;
    while more
      invariant buffer.Valid()
      invariant taken <= |r0| && buffer.Readable() == r0[taken..]
      invariant sent == NonNull(delivered)
      invariant more ==> var rest := ServerLoop(handle, buffer.Readable());
                  && error.None? && total.delivered == delivered + rest.delivered
                  && total.consumed == taken + rest.consumed && total.error == rest.error
      invariant !more ==> total == Session(delivered, taken, error)
      decreases more, |buffer.Readable()|
    {
      ghost var before := buffer.Readable();
      var out;
      more, out, error := HandleMessageTurn(handle, buffer);
      ghost var k := |before| - |buffer.Readable()|;
      ghost var rest := ServerLoop(handle, buffer.Readable());
      NonNullAppend(delivered, out);
      ConcatAssoc(delivered, out, rest.delivered);
      assert r0[taken..][k..] == r0[taken + k..];
      delivered := delivered + out;
      sent := sent + NonNull(out);
      taken := taken + k;
    }
  }

  /** One turn of `handleMessage` on a complete frame: drop the header, take the body, hand it to the protocol. */
  method HandleFrame(handle: Handler, buffer: Buffer) returns (out: Result<seq<Value>, RpcException>)
    requires buffer.Valid() && ServerStep(buffer.Readable()).Frame?
    modifies buffer
    ensures var step := ServerStep(old(buffer.Readable()));
            && buffer.Valid() && buffer.Readable() == old(buffer.Readable())[step.consumed..]
            && out == handle(step.json)
  {
    var step := ServerStep(buffer.Readable());
    buffer.Retrieve(step.consumed - |step.json|);
    var json := buffer.RetrieveAsString(|step.json|);
    assert json == step.json;
    out := handle(json);
  }

  /**
   * `onMessage`: run the decoder loop; a request exception that escapes it
   * is answered with its error response and the connection is shut down.
   * A notify exception is not caught there and escapes `onMessage`.
   */
  method OnMessage(handle: Handler, buffer: Buffer) returns (sent: seq<Value>, shutdown: bool, uncaught: Option<RpcException>)
    requires buffer.Valid()
    modifies buffer
    ensures buffer.Valid()
    ensures var s := ServerLoop(handle, old(buffer.Readable()));
            && buffer.Readable() == old(buffer.Readable())[s.consumed..]
            && shutdown == (s.error.Some? && s.error.value.RequestException?)
            && sent == NonNull(s.delivered) + (if shutdown then [WrapException(s.error.value)] else [])
            && uncaught == (if s.error.Some? && s.error.value.NotifyException? then s.error else None)
  {
    var error;
    sent, error := HandleMessage(handle, buffer);
    shutdown := false;
    uncaught := None;
    if error.Some? {
      if error.value.RequestException? {
        sent := sent + [WrapException(error.value)];
        shutdown := true;
      } else {
        uncaught := error;
      }
    } else {
      assert sent + [] == sent;
    }
  }
}
