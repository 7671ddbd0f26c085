/**
 * The client engine: it tags each call with a fresh id and remembers the
 * callback under that id, frames requests like the server frames responses,
 * and on receipt cuts the buffer into frames, checks each response and fires
 * the pending callback of its id exactly once.
 *
 * A callback is opaque (`C`); firing it is recorded as an `Invocation` with
 * the value and the error flag it was given (the timeout flag is always
 * false on this path).
 */
module Client {
  import opened Results
  import opened Json
  import opened Exceptions
  import opened Framing
  import opened Util
  import opened BaseServer

  const Int64Max: int := 0x7fff_ffff_ffff_ffff

  /**
   * One call of a response callback, `callback(value, isError, false)`,
   * together with the id of the pending entry it was stored under.
   */
  datatype Invocation<C> = Invocation(id: int, callback: C, value: Value, isError: bool)

  /** `findValue`: the member `key` of type `t`, or the error naming what is wrong. */
  function FindTyped(response: Value, key: string, t: ValueType): (r: Result<Value, ResponseException>)
    ensures r.Ok? <==> FindMember(response, key).Some? && TypeOf(FindMember(response, key).value) == t
    ensures r.Ok? ==> r.value == FindMember(response, key).value
    ensures r.Err? ==> !r.error.hasId
  {
    match FindMember(response, key)
    case None => Err(ResponseError("missing field"))
    case Some(v) => if TypeOf(v) != t then Err(ResponseError("bad type")) else Ok(v)
  }

  /** `findValue` with an id: the same check, its error tagged with the response's id. */
  function FindTypedWithId(response: Value, key: string, t: ValueType, id: int32): (r: Result<Value, ResponseException>)
    ensures r.Ok? <==> FindTyped(response, key, t).Ok?
    ensures r.Ok? ==> r.value == FindMember(response, key).value
    ensures r.Err? ==> r.error.hasId && r.error.id == id
  {
    match FindTyped(response, key, t)
    case Ok(v) => Ok(v)
    case Err(e) => Err(ResponseErrorWithId(e.msg, id))
  }

  /** What a well-formed response is: three members, an int32 id, version "2.0", and a result or an error object. */
  predicate IsValidResponse(response: Value) {
    && Size(response) == 3
    && FindMember(response, "id").Some? && FindMember(response, "id").value.Int32?
    && FindMember(response, "jsonrpc") == Some(String("2.0"))
    && (HasMember(response, "result")
        || (FindMember(response, "error").Some? && FindMember(response, "error").value.Object?))
  }

  /**
   * `validateResponse`: the response's id when the response is well formed.
   * An error raised once the id has been read carries that id.
   */
  function ValidateResponse(response: Value): (r: Result<int32, ResponseException>)
    ensures r.Ok? <==> IsValidResponse(response)
    ensures r.Ok? ==> FindMember(response, "id") == Some(Int32(r.value))
    ensures r.Err? ==> (r.error.hasId <==> Size(response) == 3 && FindTyped(response, "id", TypeInt32).Ok?)
    ensures r.Err? && r.error.hasId ==> FindMember(response, "id") == Some(Int32(r.error.id))
  {
    if Size(response) != 3 then
      Err(ResponseError("response should have exactly 3 fields: (jsonrpc, error/result, id)"))
    else
      match FindTyped(response, "id", TypeInt32)
      case Err(e) => Err(e)
      case Ok(idValue) =>
        var id := idValue.i;
        match FindTypedWithId(response, "jsonrpc", TypeString, id)
        case Err(e) => Err(e)
        case Ok(version) =>
          if version.s != "2.0" then Err(ResponseErrorWithId("unknown json rpc version", id))
          else if HasMember(response, "result") then Ok(id)
          else
            match FindTypedWithId(response, "error", TypeObject, id)
            case Err(e) => Err(e)
            case Ok(_) => Ok(id)
  }

  /** The error response the server sends for a request error validates, with the request's id, when that id is an int32. */
  lemma ErrorResponseValidates(e: RpcException)
    requires e.RequestException? && e.id.Int32?
    ensures ValidateResponse(WrapException(e)) == Ok(e.id.i)
  {
    WrapExceptionShape(e);
  }

  /** The success response built by a handler's completion callback validates, with the request's id, when that id is an int32. */
  lemma SuccessResponseValidates(request: Value, result: Value)
    requires MemberOrNull(request, "id").Int32?
    ensures ValidateResponse(UserDone(request, result)) == Ok(MemberOrNull(request, "id").i)
  {
  }

  /** `sendRequest`: a serialised request framed for the wire; the server's decoder takes it back whole. */
  function SendRequest(serialize: Value -> seq<byte>, request: Value): (message: seq<byte>)
    ensures |serialize(request)| + 2 <= ServerMaxMessageLen ==>
              ServerStep(message) == Frame(|message|, serialize(request) + CRLF)
  {
    var body := serialize(request);
    assert |body| + 2 <= ServerMaxMessageLen ==> ServerStep(Encode(body)) == Frame(|Encode(body)|, body + CRLF) by {
      if |body| + 2 <= ServerMaxMessageLen {
        ServerDecodesEncoded(body, []);
        assert Encode(body) + [] == Encode(body);
      }
    }
    Encode(body)
  }

  /** The state change caused by some received bytes: remaining callbacks, callbacks fired, and the error raised, if any. */
  datatype Outcome<C> = Outcome(callbacks: map<int, C>, fired: seq<Invocation<C>>, error: Option<ResponseException>)

  /** `handleSingleResponse` as a specification. */
  function SingleOutcome<C>(callbacks: map<int, C>, response: Value): Outcome<C> {
    match ValidateResponse(response)
    case Err(e) => Outcome(callbacks, [], Some(e))
    case Ok(id) =>
      if id !in callbacks then Outcome(callbacks, [], None)
      else
        var fired :=
          match FindMember(response, "result")
          case Some(result) => [Invocation(id, callbacks[id], result, false)]
          case None =>
            match FindMember(response, "error")
            case Some(error) => [Invocation(id, callbacks[id], error, true)]
            case None => [];
        Outcome(callbacks - {id}, fired, None)
  }

  /** The loop over a batch response from element i on; it stops at the first element that raises. */
  function BatchOutcome<C>(callbacks: map<int, C>, responses: seq<Value>, i: nat): Outcome<C>
    requires i <= |responses|
    decreases |responses| - i
  {
    if i == |responses| then Outcome(callbacks, [], None)
    else
      var o := SingleOutcome(callbacks, responses[i]);
      if o.error.Some? then o
      else
        var rest := BatchOutcome(o.callbacks, responses, i + 1);
        Outcome(rest.callbacks, o.fired + rest.fired, rest.error)
  }

  /** `handleResponse` as a specification, on what the JSON parser made of the frame. */
  function ResponseOutcome<C>(callbacks: map<int, C>, parsed: Result<Value, string>): Outcome<C> {
    match parsed
    case Err(msg) => Outcome(callbacks, [], Some(ResponseError(msg)))
    case Ok(response) =>
      match response
      case Object(_) => SingleOutcome(callbacks, response)
      case Array(elems) =>
        if |elems| == 0 then Outcome(callbacks, [], Some(ResponseError("batch response is empty")))
        else BatchOutcome(callbacks, elems, 0)
      case _ => Outcome(callbacks, [], Some(ResponseError("response should be json object or array")))
  }

  /** The result of the client's decoder loop over some readable bytes. */
  datatype ClientSession<C> = ClientSession(outcome: Outcome<C>, consumed: nat)

  /** `fired` invocations and `n` dropped bytes, followed by the session `rest`. */
  function Then<C>(fired: seq<Invocation<C>>, n: nat, rest: ClientSession<C>): ClientSession<C> {
    ClientSession(Outcome(rest.outcome.callbacks, fired + rest.outcome.fired, rest.outcome.error), n + rest.consumed)
  }

  /** Two continuations in a row are one. */
  lemma ThenThen<C>(a: seq<Invocation<C>>, m: nat, b: seq<Invocation<C>>, n: nat, rest: ClientSession<C>)
    ensures Then(a, m, Then(b, n, rest)) == Then(a + b, m + n, rest)
  {
    ConcatAssoc(a, b, rest.outcome.fired);
  }

  /** The decoder loop of the client's `handleMessage` as a specification. */
  function ClientLoop<C>(parse: Parser, callbacks: map<int, C>, r: seq<byte>): (s: ClientSession<C>)
    ensures s.consumed <= |r|
    decreases |r|
  {
    match ClientStep(r)
    case Stop(n) => ClientSession(Outcome(callbacks, [], None), n)
    case Fail(n, e) => ClientSession(Outcome(callbacks, [], Some(e)), n)
    case Frame(n, json) =>
      var o := ResponseOutcome(callbacks, parse(json));
      if o.error.Some? then ClientSession(o, n)
      else
        var rest := ClientLoop(parse, o.callbacks, r[n..]);
        Then(o.fired, n, rest)
  }

  /**
   * Handling responses only ever retires pending entries, leaving the
   * others as they were; every callback fired is that of an entry it
   * retired, no entry fires twice, and as many fire as are retired, so
   * every entry retired fired its callback exactly once.
   */
  ghost predicate Retires<C>(before: map<int, C>, o: Outcome<C>) {
    && (forall id :: id in o.callbacks ==> id in before && o.callbacks[id] == before[id])
    && (forall j :: 0 <= j < |o.fired| ==>
          o.fired[j].id in before && o.fired[j].id !in o.callbacks && o.fired[j].callback == before[o.fired[j].id])
    && (forall j, k :: 0 <= j < k < |o.fired| ==> o.fired[j].id != o.fired[k].id)
    && |o.fired| + |o.callbacks| == |before|
  }

  /** Retiring some entries, then some of those left, retires both. */
  lemma RetiresThen<C>(before: map<int, C>, o: Outcome<C>, rest: Outcome<C>)
    requires Retires(before, o) && Retires(o.callbacks, rest)
    ensures Retires(before, Outcome(rest.callbacks, o.fired + rest.fired, rest.error))
  {
    var fired := o.fired + rest.fired;
    forall j | 0 <= j < |fired|
      ensures fired[j].id in before && fired[j].id !in rest.callbacks && fired[j].callback == before[fired[j].id]
    {
      if j >= |o.fired| {
        assert fired[j] == rest.fired[j - |o.fired|];
      }
    }
    forall j, k | 0 <= j < k < |fired|
      ensures fired[j].id != fired[k].id
    {
      if j < |o.fired| && k >= |o.fired| {
        assert fired[k] == rest.fired[k - |o.fired|];
      } else if j >= |o.fired| {
        assert fired[j] == rest.fired[j - |o.fired|] && fired[k] == rest.fired[k - |o.fired|];
      }
    }
  }

  /** A valid response for a pending id fires that id's callback once, with the result or else the error, and retires it. */
  lemma PendingFiresOnce<C>(callbacks: map<int, C>, response: Value)
    requires ValidateResponse(response).Ok? && ValidateResponse(response).value in callbacks
    ensures var id := ValidateResponse(response).value;
            var o := SingleOutcome(callbacks, response);
            && o.error.None? && o.callbacks == callbacks - {id}
            && o.fired == if HasMember(response, "result")
                          then [Invocation(id, callbacks[id], FindMember(response, "result").value, false)]
                          else [Invocation(id, callbacks[id], FindMember(response, "error").value, true)]
    ensures SingleOutcome(SingleOutcome(callbacks, response).callbacks, response)
              == SingleOutcome(callbacks, response).(fired := [])
  {
  }

  /** A valid response for an id that is not pending changes nothing. */
  lemma UnknownIdIgnored<C>(callbacks: map<int, C>, response: Value)
    requires ValidateResponse(response).Ok? && ValidateResponse(response).value !in callbacks
    ensures SingleOutcome(callbacks, response) == Outcome(callbacks, [], None)
  {
  }

  /** A success response for a pending call fires that call's callback with the handler's result. */
  lemma SuccessFiresCallback<C>(callbacks: map<int, C>, request: Value, result: Value)
    requires MemberOrNull(request, "id").Int32? && MemberOrNull(request, "id").i in callbacks
    ensures var id := MemberOrNull(request, "id").i;
            SingleOutcome(callbacks, UserDone(request, result))
              == Outcome(callbacks - {id}, [Invocation(id, callbacks[id], result, false)], None)
  {
    SuccessResponseValidates(request, result);
  }

  /** An error response for a pending call fires that call's callback with the error object. */
  lemma ErrorFiresCallback<C>(callbacks: map<int, C>, e: RpcException)
    requires e.RequestException? && e.id.Int32? && e.id.i in callbacks
    ensures SingleOutcome(callbacks, WrapException(e))
              == Outcome(callbacks - {e.id.i}, [Invocation(e.id.i, callbacks[e.id.i], MemberOrNull(WrapException(e), "error"), true)], None)
  {
    ErrorResponseValidates(e);
    WrapExceptionShape(e);
  }

  lemma SingleRetires<C>(callbacks: map<int, C>, response: Value)
    ensures Retires(callbacks, SingleOutcome(callbacks, response))
  {
    match ValidateResponse(response)
    case Err(_) =>
    case Ok(id) =>
      if id in callbacks {
        var rest := callbacks - {id};
        assert rest.Keys == callbacks.Keys - {id};
      }
  }

  lemma {:induction false} BatchRetires<C>(callbacks: map<int, C>, responses: seq<Value>, i: nat)
    requires i <= |responses|
    ensures Retires(callbacks, BatchOutcome(callbacks, responses, i))
    decreases |responses| - i
  {
    if i < |responses| {
      var o := SingleOutcome(callbacks, responses[i]);
      SingleRetires(callbacks, responses[i]);
      if o.error.None? {
        BatchRetires(o.callbacks, responses, i + 1);
        RetiresThen(callbacks, o, BatchOutcome(o.callbacks, responses, i + 1));
      }
    }
  }

  lemma ResponseRetires<C>(callbacks: map<int, C>, parsed: Result<Value, string>)
    ensures Retires(callbacks, ResponseOutcome(callbacks, parsed))
  {
    if parsed.Ok? {
      match parsed.value
      case Object(_) =>
        assert ResponseOutcome(callbacks, parsed) == SingleOutcome(callbacks, parsed.value);
        SingleRetires(callbacks, parsed.value);
      case Array(elems) =>
        if |elems| > 0 {
          assert ResponseOutcome(callbacks, parsed) == BatchOutcome(callbacks, elems, 0);
          BatchRetires(callbacks, elems, 0);
        }
      case _ =>
    }
  }

  /** Over any bytes the decoder loop only retires pending entries, each firing its callback once. */
  lemma {:induction false} ClientLoopRetires<C>(parse: Parser, callbacks: map<int, C>, r: seq<byte>)
    ensures Retires(callbacks, ClientLoop(parse, callbacks, r).outcome)
    decreases |r|
  {
    match ClientStep(r)
    case Stop(_) =>
    case Fail(_, _) =>
    case Frame(n, json) =>
      var o := ResponseOutcome(callbacks, parse(json));
      ResponseRetires(callbacks, parse(json));
      if o.error.None? {
        ClientLoopRetires(parse, o.callbacks, r[n..]);
        RetiresThen(callbacks, o, ClientLoop(parse, o.callbacks, r[n..]).outcome);
      }
  }

  /** One element of the batch loop: what it does, after what came before, then the rest of the batch. */
  lemma BatchOutcomeStep<C>(callbacks: map<int, C>, responses: seq<Value>, i: nat, fired: seq<Invocation<C>>)
    requires i < |responses|
    ensures var o := SingleOutcome(callbacks, responses[i]);
            var all := BatchOutcome(callbacks, responses, i);
            var rest := BatchOutcome(o.callbacks, responses, i + 1);
            && (o.error.Some? ==> all.(fired := fired + all.fired) == o.(fired := fired + o.fired))
            && (o.error.None? ==> all.(fired := fired + all.fired) == rest.(fired := (fired + o.fired) + rest.fired))
  {
    var o := SingleOutcome(callbacks, responses[i]);
    var rest := BatchOutcome(o.callbacks, responses, i + 1);
    ConcatAssoc(fired, o.fired, rest.fired);
  }

  /** A frame written by the server's framing is handled whole, and the loop resumes right after it. */
  lemma ClientLoopEncoded<C>(parse: Parser, callbacks: map<int, C>, body: seq<byte>, rest: seq<byte>)
    requires |body| + 2 < ClientMaxMessageLen
    ensures var o := ResponseOutcome(callbacks, parse(body + CRLF));
            var n := |Encode(body)|;
            var tail := ClientLoop(parse, o.callbacks, rest);
            ClientLoop(parse, callbacks, Encode(body) + rest) ==
              if o.error.Some? then ClientSession(o, n)
              else Then(o.fired, n, tail)
  {
    ClientDecodesEncoded(body, rest);
    assert (Encode(body) + rest)[|Encode(body)|..] == rest;
  }

  /** One loop turn on a frame: its effects come first, then, unless it raised, those of the rest of the bytes. */
  lemma ClientLoopFrame<C>(parse: Parser, callbacks: map<int, C>, r: seq<byte>)
    requires ClientStep(r).Frame?
    ensures var n := ClientStep(r).consumed;
            var o := ResponseOutcome(callbacks, parse(ClientStep(r).json));
            var rest := ClientLoop(parse, o.callbacks, r[n..]);
            ClientLoop(parse, callbacks, r)
              == if o.error.Some? then ClientSession(o, n)
                 else Then(o.fired, n, rest)
  {
  }

  /** The client: the id counter, the pending callbacks by id, and the callbacks fired so far. */
  class BaseClient<C> {
    var nextId: nat
    var callbacks: map<int, C>
    var invoked: seq<Invocation<C>>

    /** Every pending id was handed out already, so a fresh id is never pending. */
    ghost predicate Valid()
      reads this
    {
      forall id :: id in callbacks ==> 0 <= id < nextId
    }

    constructor ()
      ensures Valid() && nextId == 0 && callbacks == map[] && invoked == []
    {
      nextId := 0;
      callbacks := map[];
      invoked := [];
    }

    /**
     * `sendCall`: tag the call with the next id, remember its callback under
     * that id, advance the counter, and frame the call for the wire.
     */
    method SendCall(call: Value, callback: C, serialize: Value -> seq<byte>) returns (tagged: Value, message: seq<byte>)
      requires Valid() && call.Object? && nextId < Int64Max
      modifies this
      ensures Valid()
      ensures old(nextId) !in old(callbacks)
      ensures tagged == AddMember(call, "id", Int64(old(nextId)))
      ensures nextId == old(nextId) + 1
      ensures callbacks == old(callbacks)[old(nextId) := callback] && invoked == old(invoked)
      ensures message == SendRequest(serialize, tagged)
    {
      tagged := AddMember(call, "id", Int64(nextId));
      callbacks := callbacks[nextId := callback];
      nextId := nextId + 1;
      message := SendRequest(serialize, tagged);
    }

    /** `sendNotify`: frame the notification; no id, no callback. */
    method SendNotify(notify: Value, serialize: Value -> seq<byte>) returns (message: seq<byte>)
      ensures message == SendRequest(serialize, notify)
    {
      message := SendRequest(serialize, notify);
    }

    /** `handleSingleResponse`: validate, then fire and retire the pending callback of the response's id. */
    method HandleSingleResponse(response: Value) returns (error: Option<ResponseException>)
      requires Valid()
      modifies this
      ensures Valid() && nextId == old(nextId)
      ensures var o := SingleOutcome(old(callbacks), response);
              callbacks == o.callbacks && invoked == old(invoked) + o.fired && error == o.error
    {
      var checked := ValidateResponse(response);
      if checked.Err? {
        return Some(checked.error);
      }
      var id := checked.value;
      if id !in callbacks {
        return None;
      }
      var callback := callbacks[id];
      match FindMember(response, "result") {
        case Some(result) =>
          invoked := invoked + [Invocation(id, callback, result, false)];
        case None =>
          match FindMember(response, "error") {
            case Some(err) =>
              invoked := invoked + [Invocation(id, callback, err, true)];
            case None =>
          }
      }
      callbacks := callbacks - {id};
      error := None;
    }

    /** The batch branch of `handleResponse`: each element in order, until one raises. */
    method HandleBatchResponse(responses: seq<Value>) returns (error: Option<ResponseException>)
      requires Valid()
      modifies this
      ensures Valid() && nextId == old(nextId)
      ensures var o := BatchOutcome(old(callbacks), responses, 0);
              callbacks == o.callbacks && invoked == old(invoked) + o.fired && error == o.error
    {
      ghost var total := BatchOutcome(callbacks, responses, 0);
      ghost var fired: seq<Invocation<C>> := [];
      ghost var i0 := invoked;
      var i := 0;
      while i < |responses|
        invariant 0 <= i <= |responses|
        invariant Valid() && nextId == old(nextId)
        invariant invoked == i0 + fired
        invariant total == BatchOutcome(callbacks, responses, i).(fired := fired + BatchOutcome(callbacks, responses, i).fired)
        decreases |responses| - i
      {
        ghost var o := SingleOutcome(callbacks, responses[i]);
        BatchOutcomeStep(callbacks, responses, i, fired);
        error := HandleSingleResponse(responses[i]);
        ConcatAssoc(i0, fired, o.fired);
        if error.Some? {
          return;
        }
        fired := fired + o.fired;
        i := i + 1;
      }
      assert fired + [] == fired;
      error := None;
    }

    /** `handleResponse`: parse the frame, then handle a single response or a non-empty batch. */
    method HandleResponse(json: seq<byte>, parse: Parser) returns (error: Option<ResponseException>)
      requires Valid()
      modifies this
      ensures Valid() && nextId == old(nextId)
      ensures var o := ResponseOutcome(old(callbacks), parse(json));
              callbacks == o.callbacks && invoked == old(invoked) + o.fired && error == o.error
    {
      ghost var o := ResponseOutcome(callbacks, parse(json));
      match parse(json) {
        case Err(msg) =>
          error := Some(ResponseError(msg));
        case Ok(response) =>
          if response.Object? {
            assert o == SingleOutcome(callbacks, response);
            error := HandleSingleResponse(response);
          } else if response.Array? {
            if |response.elems| == 0 {
              error := Some(ResponseError("batch response is empty"));
            } else {
              assert o == BatchOutcome(callbacks, response.elems, 0);
              error := HandleBatchResponse(response.elems);
            }
          } else {
            error := Some(ResponseError("response should be json object or array"));
          }
      }
    }

    /** The body of a frame of the client's `handleMessage`: drop the header, take the body, handle it. */
    method HandleFrame(buffer: Buffer, parse: Parser) returns (error: Option<ResponseException>)
      requires Valid() && buffer.Valid() && ClientStep(buffer.Readable()).Frame?
      modifies this, buffer
      ensures Valid() && nextId == old(nextId)
      ensures var step := ClientStep(old(buffer.Readable()));
              var o := ResponseOutcome(old(callbacks), parse(step.json));
              && buffer.Valid() && buffer.Readable() == old(buffer.Readable())[step.consumed..]
              && callbacks == o.callbacks && invoked == old(invoked) + o.fired && error == o.error
    {
      var step := ClientStep(buffer.Readable());
      buffer.Retrieve(step.consumed - |step.json|);
      var json := buffer.RetrieveAsString(|step.json|);
      assert json == step.json;
      error := HandleResponse(json, parse);
    }

    /**
     * One turn of the client's `handleMessage`: leave at an incomplete frame,
     * raise on a bad header, or handle one frame. What the turn did, followed
     * by what the loop does from there on (when it goes on), is what the loop
     * does from the old buffer.
     */
    method HandleMessageTurn(buffer: Buffer, parse: Parser) returns (more: bool, error: Option<ResponseException>, ghost fired: seq<Invocation<C>>)
      requires Valid() && buffer.Valid()
      modifies this, buffer
      ensures Valid() && nextId == old(nextId) && buffer.Valid()
      ensures invoked == old(invoked) + fired
      ensures var k := |old(buffer.Readable())| - |buffer.Readable()|;
              var s := ClientLoop(parse, old(callbacks), old(buffer.Readable()));
              var rest := ClientLoop(parse, callbacks, buffer.Readable());
              && |buffer.Readable()| <= |old(buffer.Readable())|
              && buffer.Readable() == old(buffer.Readable())[k..]
              && (more ==> k > 0 && error.None?
                           && s == Then(fired, k, rest))
              && (!more ==> s == ClientSession(Outcome(callbacks, fired, error), k))
    {
      var readable := buffer.Readable();
      var step := ClientStep(readable);
      if step.Stop? {
        assert ClientLoop(parse, callbacks, readable) == ClientSession(Outcome(callbacks, [], None), step.consumed);
        return false, None, [];
      } else if step.Fail? {
        assert ClientLoop(parse, callbacks, readable) == ClientSession(Outcome(callbacks, [], Some(step.error)), step.consumed);
        buffer.Retrieve(step.consumed);
        return false, Some(step.error), [];
      }
      fired := ResponseOutcome(callbacks, parse(step.json)).fired;
      ClientLoopFrame(parse, callbacks, readable);
      error := HandleFrame(buffer, parse);
      more := error.None?;
    }

    /** `handleMessage`: handle every complete frame in the buffer until one raises or none is left. */
    method HandleMessage(buffer: Buffer, parse: Parser) returns (error: Option<ResponseException>)
      requires Valid() && buffer.Valid()
      modifies this, buffer
      ensures Valid() && nextId == old(nextId) && buffer.Valid()
      ensures var s := ClientLoop(parse, old(callbacks), old(buffer.Readable()));
              && buffer.Readable() == old(buffer.Readable())[s.consumed..]
              && callbacks == s.outcome.callbacks && invoked == old(invoked) + s.outcome.fired
              && error == s.outcome.error
    {
      ghost var r0 := buffer.Readable();
      ghost var total := ClientLoop(parse, callbacks, r0);
      ghost var taken: nat := 0;
      ghost var fired: seq<Invocation<C>> := [];
      ghost var i0 := invoked;
      var more := true;
      error := None;
      while more
        invariant Valid() && nextId == old(nextId) && buffer.Valid()
        invariant taken <= |r0| && buffer.Readable() == r0[taken..]
        invariant invoked == i0 + fired
        invariant more ==> error.None? && total == Then(fired, taken, ClientLoop(parse, callbacks, buffer.Readable()))
        invariant !more ==> total == ClientSession(Outcome(callbacks, fired, error), taken)
        decreases more, |buffer.Readable()|
      {
        ghost var before := buffer.Readable();
        ghost var f;
        more, error, f := HandleMessageTurn(buffer, parse);
        ghost var k := |before| - |buffer.Readable()|;
        ConcatAssoc(i0, fired, f);
        ghost var rest := ClientLoop(parse, callbacks, buffer.Readable());
        ThenThen(fired, taken, f, k, rest);
        assert r0[taken..][k..] == r0[taken + k..];
        fired := fired + f;
        taken := taken + k;
      }
    }

    /**
     * `onMessage`: run the decoder loop; a response error that carries an id
     * abandons that call, whose pending callback is dropped without firing.
     */
    method OnMessage(buffer: Buffer, parse: Parser) returns (error: Option<ResponseException>)
      requires Valid() && buffer.Valid()
      modifies this, buffer
      ensures Valid() && nextId == old(nextId) && buffer.Valid()
      ensures var s := ClientLoop(parse, old(callbacks), old(buffer.Readable()));
              && buffer.Readable() == old(buffer.Readable())[s.consumed..]
              && invoked == old(invoked) + s.outcome.fired
              && error == s.outcome.error
              && callbacks == if error.Some? && error.value.hasId then s.outcome.callbacks - {error.value.id}
                              else s.outcome.callbacks
    {
      error := HandleMessage(buffer, parse);
      if error.Some? && error.value.hasId {
        callbacks := callbacks - {error.value.id};
      }
    }
  }
}
