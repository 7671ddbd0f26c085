/**
 * A service: two write-once tables of procedures keyed by method name, one
 * for calls and one for notifications, and the lookup that forwards a
 * request to the registered procedure.  The lookup is stated over the
 * service's tables as a value, `ServiceTable`, which `RpcService.Table`
 * reads off the object.
 */
module Services {
  import opened Results
  import opened Json
  import opened RpcErrors
  import opened Exceptions
  import opened Procedures

  /** The contents of a service's two procedure tables. */
  datatype ServiceTable = ServiceTable(
    calls: map<string, ProcedureReturn>,
    notifies: map<string, ProcedureNotify>)

  class RpcService {
    var procedureReturn: map<string, ProcedureReturn>
    var procedureNotify: map<string, ProcedureNotify>

    constructor ()
      ensures procedureReturn == map[] && procedureNotify == map[]
    {
      procedureReturn := map[];
      procedureNotify := map[];
    }

    function Table(): ServiceTable
      reads this
    {
      ServiceTable(procedureReturn, procedureNotify)
    }

    /** Registers a call procedure under a name not yet used for calls. */
    method AddProcedureReturn(methodName: string, p: ProcedureReturn)
      requires methodName !in procedureReturn
      modifies this
      ensures procedureReturn == old(procedureReturn)[methodName := p]
      ensures procedureNotify == old(procedureNotify)
    {
      procedureReturn := procedureReturn[methodName := p];
    }

    /** Registers a notify procedure under a name not yet used for notifications. */
    method AddProcedureNotify(methodName: string, p: ProcedureNotify)
      requires methodName !in procedureNotify
      modifies this
      ensures procedureNotify == old(procedureNotify)[methodName := p]
      ensures procedureReturn == old(procedureReturn)
    {
      procedureNotify := procedureNotify[methodName := p];
    }
  }

  /** `callProcedureReturn`: forwards a call to the procedure registered for calls under `methodName`. */
  function CallProcedureReturn(service: ServiceTable, methodName: string, request: Value): (r: Result<Value, RpcException>)
    ensures methodName !in service.calls ==>
              r == Err(RequestErrorWithId(MethodNotFound, MemberOrNull(request, "id"), "method not found"))
    ensures methodName in service.calls ==> r == InvokeReturn(service.calls[methodName], request)
    ensures r.Err? ==> r.error.RequestException? && r.error.id == MemberOrNull(request, "id")
  {
    if methodName !in service.calls then
      Err(RequestErrorWithId(MethodNotFound, MemberOrNull(request, "id"), "method not found"))
    else InvokeReturn(service.calls[methodName], request)
  }

  /** `callProcedureNotify`: forwards a notification to the procedure registered for notifications under `methodName`. */
  function CallProcedureNotify(service: ServiceTable, methodName: string, request: Value): (r: Result<(), RpcException>)
    ensures methodName !in service.notifies ==> r == Err(NotifyException(MethodNotFound, "method not found"))
    ensures methodName in service.notifies ==> r == InvokeNotify(service.notifies[methodName], request)
    ensures r.Err? ==> r.error.NotifyException?
  {
    if methodName !in service.notifies then Err(NotifyException(MethodNotFound, "method not found"))
    else InvokeNotify(service.notifies[methodName], request)
  }
}
