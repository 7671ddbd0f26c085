/**
 * A registered procedure: a user callback plus an ordered (name, type)
 * parameter schema, and the schema check run before every invocation
 * (section 4.2 of the JSON-RPC 2.0 specification: positional or by-name
 * parameters).  The two variants differ only in the callback's shape and in
 * the exception raised: a call's error carries the request id, a
 * notification's does not.
 */
module Procedures {
  import opened Results
  import opened Json
  import opened RpcErrors
  import opened Exceptions

  datatype Param = Param(paramName: string, paramType: ValueType)

  /** The three argument types accepted as a parameter name. */
  datatype NameKind = CharPointer | StringView | StdString

  /** One argument of the constructor's variadic list. */
  datatype ProcArg =
    | NameArg(kind: NameKind, text: string)
    | TypeArg(t: ValueType)
    | OtherArg   // an argument of any other type

  /**
   * What the compiler enforces on the variadic list: an even number of
   * arguments, alternately a string-like name and a value type.
   */
  predicate WellPaired(args: seq<ProcArg>) {
    && |args| % 2 == 0
    && forall i :: 0 <= i < |args| ==> if i % 2 == 0 then args[i].NameArg? else args[i].TypeArg?
  }

  /** `initProcedure`: one Param per (name, type) pair, in argument order. */
  method InitProcedure(nameAndTypes: seq<ProcArg>) returns (params: seq<Param>)
    requires WellPaired(nameAndTypes)
    ensures |params| == |nameAndTypes| / 2
    ensures forall k :: 0 <= k < |params| ==>
              params[k] == Param(nameAndTypes[2 * k].text, nameAndTypes[2 * k + 1].t)
  {
    params := [];
    var i := 0;
    while i < |nameAndTypes|
      invariant 0 <= i <= |nameAndTypes| && i % 2 == 0
      invariant |params| == i / 2
      invariant forall k :: 0 <= k < |params| ==>
                  params[k] == Param(nameAndTypes[2 * k].text, nameAndTypes[2 * k + 1].t)
    {
      params := params + [Param(nameAndTypes[i].text, nameAndTypes[i + 1].t)];
      i := i + 2;
    }
  }

  /** A call's callback: the response it hands to `done` for a request. */
  type ReturnCallback = Value -> Value
  /** A notification's callback: runs for its effect only. */
  type NotifyCallback = Value -> ()

  class Procedure<Func> {
    const callback: Func
    /** The schema; fixed at construction. */
    const params: seq<Param>

    constructor (callback: Func, nameAndTypes: seq<ProcArg>)
      requires WellPaired(nameAndTypes)
      ensures this.callback == callback
      ensures |params| == |nameAndTypes| / 2
      ensures forall k :: 0 <= k < |params| ==>
                params[k] == Param(nameAndTypes[2 * k].text, nameAndTypes[2 * k + 1].t)
    {
      var ps := InitProcedure(nameAndTypes);
      this.callback := callback;
      this.params := ps;
    }
  }

  type ProcedureReturn = Procedure<ReturnCallback>
  type ProcedureNotify = Procedure<NotifyCallback>

  /** By-name lookup of one declared parameter: present, with the declared type. */
  predicate NamedParamPresent(params: Value, p: Param) {
    match FindMember(params, p.paramName)
    case Some(v) => TypeOf(v) == p.paramType
    case None => false
  }

  /** The schema check as a specification: non-empty, same size, and matching positionally or by name. */
  predicate ParamsConform(schema: seq<Param>, params: Value) {
    && Size(params) > 0
    && Size(params) == |schema|
    && (|| (params.Array? && forall j :: 0 <= j < |schema| ==> TypeOf(params.elems[j]) == schema[j].paramType)
        || (params.Object? && forall j :: 0 <= j < |schema| ==> NamedParamPresent(params, schema[j])))
  }

  /** The positional loop, from position i on. */
  function PositionalMatch(schema: seq<Param>, elems: seq<Value>, i: nat): (ok: bool)
    requires i <= |schema| <= |elems|
    ensures ok <==> forall j :: i <= j < |schema| ==> TypeOf(elems[j]) == schema[j].paramType
    decreases |schema| - i
  {
    if i == |schema| then true
    else if TypeOf(elems[i]) != schema[i].paramType then false
    else PositionalMatch(schema, elems, i + 1)
  }

  /** The by-name loop, from declared parameter i on. */
  function NamedMatch(schema: seq<Param>, params: Value, i: nat): (ok: bool)
    requires i <= |schema|
    ensures ok <==> forall j :: i <= j < |schema| ==> NamedParamPresent(params, schema[j])
    decreases |schema| - i
  {
    if i == |schema| then true
    else match FindMember(params, schema[i].paramName)
      case None => false
      case Some(v) => if TypeOf(v) != schema[i].paramType then false else NamedMatch(schema, params, i + 1)
  }

  /** `validateGeneric`: does the request's `params` member fit the schema? */
  function ValidateGeneric(schema: seq<Param>, request: Value): (ok: bool)
    ensures !HasMember(request, "params") ==> (ok <==> |schema| == 0)
    ensures HasMember(request, "params") ==> (ok <==> ParamsConform(schema, FindMember(request, "params").value))
  {
    match FindMember(request, "params")
    case None => |schema| == 0
    case Some(params) =>
      if Size(params) == 0 || Size(params) != |schema| then false
      else match params
        case Array(elems) => PositionalMatch(schema, elems, 0)
        case Object(_) => NamedMatch(schema, params, 0)
        case _ => false
  }

  /** `validateRequest` of a call procedure: a mismatch is InvalidParams, with the request id. */
  function ValidateRequestReturn(schema: seq<Param>, request: Value): (r: Option<RpcException>)
    ensures r.None? <==> (request.Object? || request.Array?) && ValidateGeneric(schema, request)
    ensures r.Some? ==> r.value.RequestException? && r.value.id == MemberOrNull(request, "id")
    ensures r.Some? && request.Object? ==> r.value.err == InvalidParams
  {
    if request.Object? || request.Array? then
      if !ValidateGeneric(schema, request) then
        Some(RequestErrorWithId(InvalidParams, MemberOrNull(request, "id"), "params name or type mismatch"))
      else None
    else Some(RequestErrorWithId(InvalidRequest, MemberOrNull(request, "id"), "params type must be object or array"))
  }

  /** `validateRequest` of a notify procedure: the same check, raising a notify error. */
  function ValidateRequestNotify(schema: seq<Param>, request: Value): (r: Option<RpcException>)
    ensures r.None? <==> (request.Object? || request.Array?) && ValidateGeneric(schema, request)
    ensures r.Some? ==> r.value.NotifyException?
    ensures r.Some? && request.Object? ==> r.value.err == InvalidParams
  {
    if request.Object? || request.Array? then
      if !ValidateGeneric(schema, request) then
        Some(NotifyException(InvalidParams, "params name or type mismatch"))
      else None
    else Some(NotifyException(InvalidRequest, "params type must be object or array"))
  }

  /** `invoke` of a call procedure: validate, then run the callback (whose response goes to `done`). */
  function InvokeReturn(p: ProcedureReturn, request: Value): (r: Result<Value, RpcException>)
    ensures r.Ok? <==> ValidateRequestReturn(p.params, request).None?
    ensures r.Ok? ==> r.value == p.callback(request)
    ensures r.Err? ==> r.error == ValidateRequestReturn(p.params, request).value
  {
    match ValidateRequestReturn(p.params, request)
    case Some(e) => Err(e)
    case None => Ok(p.callback(request))
  }

  /** `invoke` of a notify procedure: validate, then run the callback. */
  function InvokeNotify(p: ProcedureNotify, request: Value): (r: Result<(), RpcException>)
    ensures r.Ok? <==> ValidateRequestNotify(p.params, request).None?
    ensures r.Err? ==> r.error == ValidateRequestNotify(p.params, request).value
  {
    match ValidateRequestNotify(p.params, request)
    case Some(e) => Err(e)
    case None => Ok(p.callback(request))
  }

  /** With no `params` member, a request passes exactly when the schema is empty. */
  lemma NoParamsMemberAcceptedIffEmptySchema(schema: seq<Param>, request: Value)
    requires request.Object? && !HasMember(request, "params")
    ensures ValidateRequestReturn(schema, request).None? <==> |schema| == 0
  {
  }

  /** An explicitly empty `params` is refused even for a procedure without parameters. */
  lemma EmptyParamsRejected(schema: seq<Param>, request: Value)
    requires HasMember(request, "params") && Size(FindMember(request, "params").value) == 0
    ensures !ValidateGeneric(schema, request)
  {
  }

  /** A `params` value that is neither an array nor an object is refused. */
  lemma ScalarParamsRejected(schema: seq<Param>, request: Value)
    requires HasMember(request, "params")
    requires var ps := FindMember(request, "params").value; !ps.Array? && !ps.Object?
    ensures !ValidateGeneric(schema, request)
  {
  }

  predicate DistinctNames(schema: seq<Param>) {
    forall i, j :: 0 <= i < j < |schema| ==> schema[i].paramName != schema[j].paramName
  }

  predicate DistinctEntries(idx: seq<nat>) {
    forall i, j :: 0 <= i < j < |idx| ==> idx[i] != idx[j]
  }

  /** Pigeonhole: distinct numbers below k are at most k. */
  lemma {:induction false} DistinctBelowBound(idx: seq<nat>, k: nat)
    requires DistinctEntries(idx)
    requires forall i :: 0 <= i < |idx| ==> idx[i] < k
    ensures |idx| <= k
    decreases |idx|
  {
    if |idx| > 0 {
      var x := idx[|idx| - 1];
      var rest := idx[..|idx| - 1];
      var squeezed: seq<nat> := seq(|rest|, i requires 0 <= i < |rest| => if rest[i] > x then rest[i] - 1 else rest[i]);
      DistinctBelowBound(squeezed, k - 1);
    }
  }

  /** Distinct numbers below n, n of them: every number below n occurs. */
  lemma DistinctBelowCovers(idx: seq<nat>, n: nat, m: nat)
    requires |idx| == n && DistinctEntries(idx)
    requires forall i :: 0 <= i < |idx| ==> idx[i] < n
    requires m < n
    ensures exists i :: 0 <= i < |idx| && idx[i] == m
  {
    if forall i :: 0 <= i < |idx| ==> idx[i] != m {
      var squeezed: seq<nat> := seq(|idx|, i requires 0 <= i < |idx| => if idx[i] > m then idx[i] - 1 else idx[i]);
      DistinctBelowBound(squeezed, n - 1);
    }
  }

  /**
   * By-name parameters that pass the check, against a schema of distinct
   * names, carry no key besides the declared ones.
   */
  lemma NamedParamsHaveNoExtraKeys(schema: seq<Param>, params: Value, m: nat)
    requires params.Object? && DistinctNames(schema) && ParamsConform(schema, params)
    requires m < |params.members|
    ensures exists j :: 0 <= j < |schema| && params.members[m].key == schema[j].paramName
  {
    var ms := params.members;
    var n := |schema|;
    assert forall j :: 0 <= j < n ==> NamedParamPresent(params, schema[j]);
    var idx: seq<nat> := seq(n, j requires 0 <= j < n =>
      match KeyIndex(ms, schema[j].paramName) case Some(k) => k case None => 0);
    forall j | 0 <= j < n
      ensures idx[j] < n && ms[idx[j]].key == schema[j].paramName
    {
      assert NamedParamPresent(params, schema[j]);
    }
    DistinctBelowCovers(idx, n, m);
    var j :| 0 <= j < n && idx[j] == m;
  }
}
