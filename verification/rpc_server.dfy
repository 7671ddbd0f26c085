/**
 * The JSON-RPC 2.0 server: envelope validation of calls and notifications,
 * routing of "service.method" names to registered services, batches, the
 * per-request completion callback, and the connection-level decoder loop
 * that feeds framed requests in and sends responses out.
 *
 * A procedure's completion callback is modelled as the value the procedure
 * returns; a request's outcome is the sequence of values handed to the
 * completion callback (`done`) while it was handled, or the exception that
 * escaped from it.
 */
module Server {
  import opened Results
  import opened Json
  import opened RpcErrors
  import opened Exceptions
  import opened Procedures
  import opened Services
  import opened Framing
  import opened BaseServer

  /** The types a call's id may have (null is refused). */
  const IdTypes: set<ValueType> := {TypeString, TypeInt32, TypeInt64}

  /** `request` has a member `key` of one of `types`. */
  predicate HasTyped(request: Value, key: string, types: set<ValueType>) {
    HasMember(request, key) && TypeOf(FindMember(request, key).value) in types
  }

  /** `isNotify`: a request without an id is a notification. */
  predicate IsNotify(request: Value) {
    !HasMember(request, "id")
  }

  /** `hasParams`, as a member count. */
  function ParamsCount(request: Value): nat {
    if HasMember(request, "params") then 1 else 0
  }

  /** `findValue`: the member `key`, which must exist and have one of `types`; failures carry no id. */
  function FindValue(request: Value, key: string, types: set<ValueType>): (r: Result<Value, RpcException>)
    ensures r.Ok? <==> HasTyped(request, key, types)
    ensures r.Ok? ==> r.value == FindMember(request, key).value
    ensures r.Err? ==> r.error.RequestException? && r.error.err == InvalidRequest && r.error.id == Null
  {
    match FindMember(request, key)
    case None => Err(RequestError(InvalidRequest, "missing at least one field"))
    case Some(v) =>
      if TypeOf(v) in types then Ok(v)
      else Err(RequestError(InvalidRequest, "bad type of at least on one field"))
  }

  /** `findValue` with an id: the same lookup, the failure re-raised with the call's id. */
  function FindValueWithId(request: Value, id: Value, key: string, types: set<ValueType>): (r: Result<Value, RpcException>)
    ensures r.Ok? <==> HasTyped(request, key, types)
    ensures r.Ok? ==> r.value == FindMember(request, key).value
    ensures r.Err? ==> r.error.RequestException? && r.error.err == InvalidRequest && r.error.id == id
  {
    match FindValue(request, key, types)
    case Ok(v) => Ok(v)
    case Err(e) => Err(RequestErrorWithId(e.err, id, e.detail))
  }

  /** A well-formed call envelope: typed id, version "2.0", a string method other than "rpc.", no extra member. */
  predicate IsValidCall(request: Value) {
    && HasTyped(request, "id", IdTypes)
    && FindMember(request, "jsonrpc") == Some(String("2.0"))
    && HasTyped(request, "method", {TypeString})
    && StringMember(request, "method") != "rpc."
    && Size(request) == 3 + ParamsCount(request)
  }

  /** A well-formed notification envelope: version "2.0", a string method other than "rpc.", no extra member. */
  predicate IsValidNotify(request: Value) {
    && FindMember(request, "jsonrpc") == Some(String("2.0"))
    && HasTyped(request, "method", {TypeString})
    && StringMember(request, "method") != "rpc."
    && Size(request) == 2 + ParamsCount(request)
  }

  /** `validateRequest`: accepts exactly the well-formed calls; every failure is an invalid request or, for "rpc.", method not found. */
  function ValidateRequest(request: Value): (r: Option<RpcException>)
    ensures r.None? <==> IsValidCall(request)
    ensures r.Some? ==> r.value.RequestException?
    ensures r.Some? ==> r.value.id == (if HasTyped(request, "id", IdTypes) then FindMember(request, "id").value else Null)
    ensures r.Some? ==> (r.value.err == MethodNotFound <==>
                           && HasTyped(request, "id", IdTypes)
                           && FindMember(request, "jsonrpc") == Some(String("2.0"))
                           && FindMember(request, "method") == Some(String("rpc.")))
    ensures r.Some? ==> r.value.err in {InvalidRequest, MethodNotFound}
  {
    match FindValue(request, "id", IdTypes)
    case Err(e) => Some(e)
    case Ok(id) =>
      match FindValueWithId(request, id, "jsonrpc", {TypeString})
      case Err(e) => Some(e)
      case Ok(version) =>
        if version.s != "2.0" then Some(RequestErrorWithId(InvalidRequest, id, "jsonrpc version must be 2.0"))
        else match FindValueWithId(request, id, "method", {TypeString})
          case Err(e) => Some(e)
          case Ok(name) =>
            if name.s == "rpc." then Some(RequestErrorWithId(MethodNotFound, id, "method name is internal use"))
            else if Size(request) != 3 + ParamsCount(request) then
              Some(RequestErrorWithId(InvalidRequest, id, "unexpected field"))
            else None
  }

  /**
   * `validateNotify`: accepts exactly the well-formed notifications.  A
   * missing or non-string version or method is raised by the plain lookup
   * as a request error with a null id; the other failures are notify errors.
   */
  function ValidateNotify(request: Value): (r: Option<RpcException>)
    ensures r.None? <==> IsValidNotify(request)
    ensures r.Some? ==> (r.value.RequestException? <==>
                           || !HasTyped(request, "jsonrpc", {TypeString})
                           || (FindMember(request, "jsonrpc") == Some(String("2.0")) && !HasTyped(request, "method", {TypeString})))
    ensures r.Some? && r.value.RequestException? ==> r.value.err == InvalidRequest && r.value.id == Null
    ensures r.Some? ==> (r.value.err == MethodNotFound <==>
                           FindMember(request, "jsonrpc") == Some(String("2.0"))
                           && FindMember(request, "method") == Some(String("rpc.")))
  {
    match FindValue(request, "jsonrpc", {TypeString})
    case Err(e) => Some(e)
    case Ok(version) =>
      if version.s != "2.0" then Some(NotifyException(InvalidRequest, "jsonrpc version must be 2.0"))
      else match FindValue(request, "method", {TypeString})
        case Err(e) => Some(e)
        case Ok(name) =>
          if name.s == "rpc." then Some(NotifyException(MethodNotFound, "method name is internal use"))
          else if Size(request) != 2 + ParamsCount(request) then Some(NotifyException(InvalidRequest, "unexpected field"))
          else None
  }

  /** `find`: the position of the first `c` in `s`. */
  function IndexOf(s: string, c: char): (r: Option<nat>)
    ensures r.None? <==> c !in s
    ensures r.Some? ==> r.value < |s| && s[r.value] == c && c !in s[..r.value]
  {
    if |s| == 0 then None
    else if s[0] == c then Some(0)
    else match IndexOf(s[1..], c)
      case None => None
      case Some(i) =>
        assert s[..i + 1] == [s[0]] + s[1..][..i];
        Some(i + 1)
  }

  /** Splitting a qualified method name at its first dot recovers a dot-free service name. */
  lemma IndexOfJoin(serviceName: string, methodName: string)
    requires '.' !in serviceName
    ensures var qualified := serviceName + "." + methodName;
            && IndexOf(qualified, '.') == Some(|serviceName|)
            && qualified[..|serviceName|] == serviceName
            && qualified[|serviceName| + 1..] == methodName
  {
    var qualified := serviceName + "." + methodName;
    assert qualified[|serviceName|] == '.';
    assert forall j :: 0 <= j < |serviceName| ==> qualified[j] == serviceName[j];
    assert forall k :: |serviceName| < k <= |qualified| ==> qualified[..k][|serviceName|] == '.';
  }

  /** The registered services, as the values of their procedure tables. */
  type Registry = map<string, ServiceTable>

  /** `handleSingleRequest`: validate, route "service.method", and call the procedure. */
  function HandleSingleRequest(reg: Registry, request: Value): (r: Result<Value, RpcException>)
    ensures ValidateRequest(request).Some? ==> r == Err(ValidateRequest(request).value)
    ensures r.Err? ==> r.error.RequestException?
    ensures IsValidCall(request) && r.Err? ==> r.error.id == FindMember(request, "id").value
    ensures IsValidCall(request) && '.' !in StringMember(request, "method") ==>
              r == Err(RequestErrorWithId(MethodNotFound, FindMember(request, "id").value, "missing service name in method"))
  {
    match ValidateRequest(request)
    case Some(e) => Err(e)
    case None =>
      var id := MemberOrNull(request, "id");
      var methodName := StringMember(request, "method");
      match IndexOf(methodName, '.')
      case None => Err(RequestErrorWithId(MethodNotFound, id, "missing service name in method"))
      case Some(pos) =>
        var serviceName := methodName[..pos];
        if serviceName !in reg then Err(RequestErrorWithId(MethodNotFound, id, "service not found"))
        else
          var suffix := methodName[pos + 1..];
          if |suffix| == 0 then Err(RequestErrorWithId(MethodNotFound, id, "missing method name in method field"))
          else CallProcedureReturn(reg[serviceName], suffix, request)
  }

  /** `handleSingleNotify`: validate, route "service.method", and call the procedure. */
  function HandleSingleNotify(reg: Registry, request: Value): (r: Result<(), RpcException>)
    ensures ValidateNotify(request).Some? ==> r == Err(ValidateNotify(request).value)
    ensures IsValidNotify(request) && r.Err? ==> r.error.NotifyException?
    ensures IsValidNotify(request) && IndexOf(StringMember(request, "method"), '.') in {None, Some(0)} ==>
              r == Err(NotifyException(InvalidRequest, "missing service name in method field"))
  {
    match ValidateNotify(request)
    case Some(e) => Err(e)
    case None =>
      var methodName := StringMember(request, "method");
      match IndexOf(methodName, '.')
      case None => Err(NotifyException(InvalidRequest, "missing service name in method field"))
      case Some(pos) =>
        if pos == 0 then Err(NotifyException(InvalidRequest, "missing service name in method field"))
        else
          var serviceName := methodName[..pos];
          if serviceName !in reg then Err(NotifyException(MethodNotFound, "service not found"))
          else
            var suffix := methodName[pos + 1..];
            if |suffix| == 0 then Err(NotifyException(InvalidRequest, "missing method name in method field"))
            else CallProcedureNotify(reg[serviceName], suffix, request)
  }

  /**
   * Routing of a valid call named "service.method": it reaches the named
   * service's call table exactly when the service is registered and the
   * method part is non-empty; otherwise it fails with method-not-found,
   * echoing the id.
   */
  lemma CallRouting(reg: Registry, request: Value, serviceName: string, methodName: string)
    requires IsValidCall(request)
    requires StringMember(request, "method") == serviceName + "." + methodName
    requires '.' !in serviceName
    ensures serviceName in reg && methodName != "" ==>
              HandleSingleRequest(reg, request) == CallProcedureReturn(reg[serviceName], methodName, request)
    ensures !(serviceName in reg && methodName != "") ==>
              && HandleSingleRequest(reg, request).Err?
              && HandleSingleRequest(reg, request).error.err == MethodNotFound
              && HandleSingleRequest(reg, request).error.id == FindMember(request, "id").value
  {
    IndexOfJoin(serviceName, methodName);
  }

  /** End to end: a valid call to a registered procedure with conforming params runs its callback. */
  lemma CallReachesCallback(reg: Registry, request: Value, serviceName: string, methodName: string)
    requires IsValidCall(request)
    requires StringMember(request, "method") == serviceName + "." + methodName
    requires '.' !in serviceName && serviceName in reg
    requires methodName != "" && methodName in reg[serviceName].calls
    requires ValidateGeneric(reg[serviceName].calls[methodName].params, request)
    ensures HandleSingleRequest(reg, request) == Ok(reg[serviceName].calls[methodName].callback(request))
  {
    CallRouting(reg, request, serviceName, methodName);
  }

  /**
   * Routing of a valid notification named "service.method": it reaches the
   * named service's notify table exactly when the service name is non-empty
   * and registered and the method part is non-empty.
   */
  lemma NotifyRouting(reg: Registry, request: Value, serviceName: string, methodName: string)
    requires IsValidNotify(request)
    requires StringMember(request, "method") == serviceName + "." + methodName
    requires '.' !in serviceName
    ensures serviceName != "" && serviceName in reg && methodName != "" ==>
              HandleSingleNotify(reg, request) == CallProcedureNotify(reg[serviceName], methodName, request)
    ensures serviceName == "" || (serviceName in reg && methodName == "") ==>
              HandleSingleNotify(reg, request).Err? && HandleSingleNotify(reg, request).error.err == InvalidRequest
    ensures serviceName != "" && serviceName !in reg ==>
              HandleSingleNotify(reg, request) == Err(NotifyException(MethodNotFound, "service not found"))
  {
    IndexOfJoin(serviceName, methodName);
  }

  /** What one element of a batch contributes. */
  datatype BatchStep =
    | Reply(response: Value)   // a call that succeeded: its response is collected
    | Silent                   // a notification that succeeded: nothing is collected
    | Caught(e: RpcException)  // a failure: the batch loop stops here

  /** The error responses a caught exception adds to a batch: request errors are wrapped, notify errors only logged. */
  function CaughtResponses(e: RpcException): seq<Value>
  {
    if e.RequestException? then [WrapException(e)] else []
  }

  /** What one batch element adds to the collected responses. */
  function Contribution(step: BatchStep): seq<Value>
  {
    match step
    case Reply(response) => [response]
    case Silent => []
    case Caught(e) => CaughtResponses(e)
  }

  /** What the batch loop does with one element. */
  function BatchElement(reg: Registry, request: Value): (s: BatchStep)
    ensures !request.Object? ==> s == Caught(RequestError(InvalidRequest, "request should be json object"))
    ensures request.Object? && IsNotify(request) ==> !s.Reply?
    ensures s.Reply? ==> HandleSingleRequest(reg, request) == Ok(s.response)
    ensures s.Caught? && request.Object? && !IsNotify(request) ==> HandleSingleRequest(reg, request) == Err(s.e)
  {
    if !request.Object? then Caught(RequestError(InvalidRequest, "request should be json object"))
    else if IsNotify(request) then
      match HandleSingleNotify(reg, request)
      case Ok(_) => Silent
      case Err(e) => Caught(e)
    else
      match HandleSingleRequest(reg, request)
      case Ok(response) => Reply(response)
      case Err(e) => Caught(e)
  }

  /** `BatchElement` with the registry fixed, as the batch loop's per-element step. */
  function ElementOf(reg: Registry): Value -> BatchStep {
    request => BatchElement(reg, request)
  }

  /**
   * The responses collected by a batch loop whose per-element step is
   * `element`, from element i on: it stops at the first failure.
   */
  function BatchFrom(element: Value -> BatchStep, requests: seq<Value>, i: nat): (rs: seq<Value>)
    requires i <= |requests|
    ensures |rs| <= |requests| - i
    decreases |requests| - i
  {
    if i == |requests| then []
    else
      var step := element(requests[i]);
      if step.Caught? then Contribution(step)
      else Contribution(step) + BatchFrom(element, requests, i + 1)
  }

  /** One element of the batch loop moves its contribution from the pending part to the collected part. */
  lemma BatchAdvance(element: Value -> BatchStep, requests: seq<Value>, i: nat, before: seq<Value>, after: seq<Value>)
    requires i < |requests|
    requires after == before + Contribution(element(requests[i]))
    ensures element(requests[i]).Caught? ==> before + BatchFrom(element, requests, i) == after
    ensures !element(requests[i]).Caught? ==>
              before + BatchFrom(element, requests, i) == after + BatchFrom(element, requests, i + 1)
  {
    ConcatAssoc(before, Contribution(element(requests[i])), BatchFrom(element, requests, i + 1));
  }

  /** Elements after the first failure are never looked at. */
  lemma {:induction false} BatchIgnoresTail(element: Value -> BatchStep, requests: seq<Value>, k: nat, i: nat)
    requires i <= k < |requests| && element(requests[k]).Caught?
    ensures BatchFrom(element, requests, i) == BatchFrom(element, requests[..k + 1], i)
    decreases k - i
  {
    var prefix := requests[..k + 1];
    var step := element(requests[i]);
    assert prefix[i] == requests[i];
    if step.Caught? {
      assert BatchFrom(element, prefix, i) == Contribution(step);
    } else {
      BatchIgnoresTail(element, requests, k, i + 1);
      assert BatchFrom(element, requests, i) == Contribution(step) + BatchFrom(element, requests, i + 1);
      assert BatchFrom(element, prefix, i) == Contribution(step) + BatchFrom(element, prefix, i + 1);
    }
  }

  /** A batch whose every element is a successful call answers each, in order. */
  lemma {:induction false} BatchAllReplies(element: Value -> BatchStep, requests: seq<Value>, i: nat)
    requires i <= |requests|
    requires forall j :: i <= j < |requests| ==> element(requests[j]).Reply?
    ensures |BatchFrom(element, requests, i)| == |requests| - i
    ensures forall j :: i <= j < |requests| ==>
              BatchFrom(element, requests, i)[j - i] == element(requests[j]).response
    decreases |requests| - i
  {
    if i < |requests| {
      BatchAllReplies(element, requests, i + 1);
    }
  }

  /** A batch ends with the error response of its first failing call, if that failure is a request error. */
  lemma {:induction false} BatchEndsWithFirstError(element: Value -> BatchStep, requests: seq<Value>, k: nat, i: nat)
    requires i <= k < |requests|
    requires forall j :: i <= j < k ==> !element(requests[j]).Caught?
    requires element(requests[k]).Caught? && element(requests[k]).e.RequestException?
    ensures |BatchFrom(element, requests, i)| > 0
    ensures BatchFrom(element, requests, i)[|BatchFrom(element, requests, i)| - 1] == WrapException(element(requests[k]).e)
    decreases k - i
  {
    var step := element(requests[i]);
    if i < k {
      BatchEndsWithFirstError(element, requests, k, i + 1);
      var tail := BatchFrom(element, requests, i + 1);
      var all := Contribution(step) + tail;
      assert BatchFrom(element, requests, i) == all;
      assert all[|all| - 1] == tail[|tail| - 1];
    } else {
      assert BatchFrom(element, requests, i) == CaughtResponses(step.e);
    }
  }

  /** What elements i..j-1 of a batch contribute, concatenated in order. */
  function Contributions(element: Value -> BatchStep, requests: seq<Value>, i: nat, j: nat): seq<Value>
    requires i <= j <= |requests|
    decreases j - i
  {
    if i == j then [] else Contribution(element(requests[i])) + Contributions(element, requests, i + 1, j)
  }

  /**
   * A batch collects, in order, what every element contributes up to and
   * including its first failure k (or up to its end when nothing fails):
   * the responses of the calls before k, then the error response at k when
   * it is a request error, and nothing more when it is a notify error.
   */
  lemma {:induction false} BatchCollects(element: Value -> BatchStep, requests: seq<Value>, k: nat, i: nat)
    requires i <= k <= |requests|
    requires forall j :: i <= j < k ==> !element(requests[j]).Caught?
    requires k < |requests| ==> element(requests[k]).Caught?
    ensures k == |requests| ==> BatchFrom(element, requests, i) == Contributions(element, requests, i, k)
    ensures k < |requests| ==>
              BatchFrom(element, requests, i)
              == Contributions(element, requests, i, k) + CaughtResponses(element(requests[k]).e)
    decreases k - i
  {
    if i < k {
      BatchCollects(element, requests, k, i + 1);
      if k < |requests| {
        ConcatAssoc(Contribution(element(requests[i])), Contributions(element, requests, i + 1, k),
                    CaughtResponses(element(requests[k]).e));
      }
    }
  }

  /**
   * `handleRequest` as a specification: what a parsed frame hands to the
   * completion callback, or the exception that escapes.
   */
  function RequestOutcome(reg: Registry, parsed: Result<Value, string>): (r: Result<seq<Value>, RpcException>)
    ensures parsed.Err? ==> r == Err(RequestError(ParseError, parsed.error))
    ensures r.Ok? ==> |r.value| <= 1
    ensures parsed.Ok? && parsed.value.Object? && IsNotify(parsed.value) ==>
              r == (match HandleSingleNotify(reg, parsed.value)
                    case Ok(_) => Ok([])
                    case Err(e) => Err(e))
    ensures parsed.Ok? && parsed.value.Object? && !IsNotify(parsed.value) ==>
              r == (match HandleSingleRequest(reg, parsed.value)
                    case Ok(response) => Ok([response])
                    case Err(e) => Err(e))
    ensures parsed.Ok? && parsed.value.Array? ==>
              r == if |parsed.value.elems| == 0 then Err(RequestError(InvalidRequest, "batch request is empty"))
                   else Ok([Array(BatchFrom(ElementOf(reg), parsed.value.elems, 0))])
    ensures parsed.Ok? && !parsed.value.Object? && !parsed.value.Array? ==>
              r == Err(RequestError(InvalidRequest, "request should be json object or array"))
  {
    match parsed
    case Err(msg) => Err(RequestError(ParseError, msg))
    case Ok(request) =>
      match request
      case Object(_) =>
        if IsNotify(request) then
          (match HandleSingleNotify(reg, request)
           case Ok(_) => Ok([])
           case Err(e) => Err(e))
        else
          (match HandleSingleRequest(reg, request)
           case Ok(response) => Ok([response])
           case Err(e) => Err(e))
      case Array(elems) =>
        if |elems| == 0 then Err(RequestError(InvalidRequest, "batch request is empty"))
        else Ok([Array(BatchFrom(ElementOf(reg), elems, 0))])
      case _ => Err(RequestError(InvalidRequest, "request should be json object or array"))
  }

  /** `handleRequest` with the registry and the parser fixed, as the decoder loop's frame handler. */
  function HandlerOf(reg: Registry, parse: Parser): Handler {
    json => RequestOutcome(reg, parse(json))
  }

  class RpcServer {
    /** Registered services by name. */
    var services: map<string, RpcService>

    constructor ()
      ensures services == map[]
    {
      services := map[];
    }

    /** `addService`: a service name is registered at most once. */
    method AddService(serviceName: string, service: RpcService)
      requires serviceName !in services
      modifies this
      ensures services == old(services)[serviceName := service]
    {
      services := services[serviceName := service];
    }

    /** The current contents of every registered service. */
    function Registry(): Registry
      reads this, services.Values
    {
      map name | name in services :: services[name].Table()
    }

    /** `handleBatchRequests`: collect responses in order, stop at the first failure, deliver the array once. */
    method HandleBatchRequests(requests: seq<Value>) returns (r: Result<Value, RpcException>)
      ensures |requests| == 0 ==> r == Err(RequestError(InvalidRequest, "batch request is empty"))
      ensures |requests| > 0 ==> r == Ok(Array(BatchFrom(ElementOf(Registry()), requests, 0)))
    {
      if |requests| == 0 {
        return Err(RequestError(InvalidRequest, "batch request is empty"));
      }
      var batch := new ThreadSafeBatchResponse();
      CollectBatch(ElementOf(Registry()), batch, requests);
      var delivered := batch.Release();
      r := Ok(delivered);
    }

    /** The loop of `handleBatchRequests`, up to and including the first element that fails. */
    static method CollectBatch(element: Value -> BatchStep, batch: ThreadSafeBatchResponse, requests: seq<Value>)
      requires !batch.fired && batch.responses == []
      modifies batch
      ensures !batch.fired
      ensures batch.responses == BatchFrom(element, requests, 0)
    {
      var i := 0;
      while i < |requests|
        invariant 0 <= i <= |requests|
        invariant !batch.fired
        invariant BatchFrom(element, requests, 0) == batch.responses + BatchFrom(element, requests, i)
        decreases |requests| - i
      {
        ghost var before := batch.responses;
        var step := element(requests[i]);
        BatchAdvance(element, requests, i, before, before + Contribution(step));
        match step {
          case Reply(response) =>
            batch.AddResponse(response);
          case Silent =>
          case Caught(e) =>
            if e.RequestException? {
              batch.AddResponse(WrapException(e));
            }
        }
        assert batch.responses == before + Contribution(step);
        if step.Caught? {
          return;
        }
        i := i + 1;
      }
      assert batch.responses + [] == batch.responses;
    }

    /** `handleRequest`: parse, dispatch on the document's type, and report what was delivered. */
    method HandleRequest(json: seq<byte>, parse: Parser) returns (r: Result<seq<Value>, RpcException>)
      ensures r == RequestOutcome(Registry(), parse(json))
    {
      var reg := Registry();
      match parse(json)
      case Err(msg) =>
        r := Err(RequestError(ParseError, msg));
      case Ok(request) =>
        if request.Object? {
          if IsNotify(request) {
            var out := HandleSingleNotify(reg, request);
            r := if out.Ok? then Ok([]) else Err(out.error);
          } else {
            var out := HandleSingleRequest(reg, request);
            r := if out.Ok? then Ok([out.value]) else Err(out.error);
          }
        } else if request.Array? {
          var out := HandleBatchRequests(request.elems);
          r := if out.Ok? then Ok([out.value]) else Err(out.error);
        } else {
          r := Err(RequestError(InvalidRequest, "request should be json object or array"));
        }
    }

    /**
     * The connection's message callback: the base server's decoder loop with
     * this server's `handleRequest` as the frame handler.
     */
    method OnMessage(buffer: Buffer, parse: Parser) returns (sent: seq<Value>, shutdown: bool, uncaught: Option<RpcException>)
      requires buffer.Valid()
      modifies buffer
      ensures buffer.Valid()
      ensures var s := ServerLoop(HandlerOf(Registry(), parse), old(buffer.Readable()));
              && buffer.Readable() == old(buffer.Readable())[s.consumed..]
              && shutdown == (s.error.Some? && s.error.value.RequestException?)
              && sent == NonNull(s.delivered) + (if shutdown then [WrapException(s.error.value)] else [])
              && uncaught == (if s.error.Some? && s.error.value.NotifyException? then s.error else None)
    {
      sent, shutdown, uncaught := BaseServer.OnMessage(HandlerOf(Registry(), parse), buffer);
    }
  }

  /** The batch accumulator: responses collected under a lock, delivered once when the last owner releases it. */
  class ThreadSafeBatchResponse {
    var responses: seq<Value>
    /** Whether the completion callback has run. */
    var fired: bool

    constructor ()
      ensures responses == [] && !fired
    {
      responses := [];
      fired := false;
    }

    /** `addResponse`: append one response; only before delivery. */
    method AddResponse(response: Value)
      requires !fired
      modifies this
      ensures responses == old(responses) + [response] && !fired
    {
      responses := responses + [response];
    }

    /** The destructor of the shared data: runs the completion callback with the collected array, once. */
    method Release() returns (delivered: Value)
      requires !fired
      modifies this
      ensures fired && responses == old(responses)
      ensures delivered == Array(responses)
    {
      fired := true;
      delivered := Array(responses);
    }
  }
}
