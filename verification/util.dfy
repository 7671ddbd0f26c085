/** The success response built by the completion callback handed to user handlers. */
module Util {
  import opened Results
  import opened Json

  /**
   * `UserDoneCallback::operator()`: wraps the handler's result into a
   * response echoing the id of the captured request.
   */
  function UserDone(request: Value, result: Value): (response: Value)
    ensures response.Object? && Size(response) == 3
    ensures FindMember(response, "jsonrpc") == Some(String("2.0"))
    ensures FindMember(response, "id") == Some(MemberOrNull(request, "id"))
    ensures FindMember(response, "result") == Some(result)
    ensures !HasMember(response, "error")
  {
    var ms := [
      Member("jsonrpc", String("2.0")),
      Member("id", MemberOrNull(request, "id")),
      Member("result", result)
    ];
    assert KeyIndex(ms[2..], "result") == Some(0);
    assert KeyIndex(ms[1..], "result") == Some(1);
    assert KeyIndex(ms[1..], "id") == Some(0);
    Object(ms)
  }
}
