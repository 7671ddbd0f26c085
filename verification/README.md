# mudong-rpc core, modelled in Dafny

This project models the protocol core of mudong-rpc, a JSON-RPC 2.0 engine.
It has a server and a client that exchange length-prefixed JSON frames, and a
generator that reads a JSON service description for the code emitters.

The model covers these parts:

- **Framing.** A frame is `<decimal length>\r\n<body>\r\n`, where the length counts the body plus its trailing CR LF. There are two decoders. The server refuses lengths above 100 MiB and drops a bare CR LF. The client refuses lengths of 64 KiB or more and raises on a bare CR LF. The receive buffer is a class with a read offset.
- **Server.** Calls and notifications go through envelope validation. Methods named `service.method` are routed to the registered services. Each procedure checks its parameter schema, positionally or by name. Batches are collected in order and stop at the first failure. The decoder loop hands each frame to the protocol's handler. A request exception that escapes the loop is answered with its error response, and then the connection is shut down.
- **Client.** Each call is tagged with a fresh id and its callback is kept under that id. Each response is validated. When its id is pending, that callback fires exactly once, with the result or with the error object. A response error that carries an id abandons that call.
- **Stub generator input.** The service description is checked and split into call entries and notification entries, each list in description order. This part also includes `replaceAll`.

Where the code departs from the JSON-RPC 2.0 specification or from what its names suggest, the model follows the code:

- `validateNotify` raises a *request* exception with a null id when `jsonrpc` or `method` is missing or is not a string. This is because it uses the id-less `findValue`.
- A failed single notification escapes `onMessage` uncaught. It is modelled as the `uncaught` output.
- The reserved-name check compares the method name with `"rpc."` for equality. It does not test for a prefix.
- A batch made only of notifications still delivers an empty array.

Callbacks are values:

- A call procedure's callback is a function from the request to the response it hands to `done`.
- A client response callback is opaque. Firing it is recorded as an `Invocation`.
- The JSON parser and serializer belong to the JSON library. They are parameters: `Parser = seq<byte> -> Result<Value, string>`, and `Value -> seq<byte>`.

Files:

- `results.dfy`, `json.dfy`: the wrappers, and the JSON value model of the library. It has ordered members, and lookup finds the first member with a given key.
- `rpc_error.dfy`, `exception.dfy`, `util.dfy`: the error table, the exceptions, and the success-response builder.
- `framing.dfy`: the wire format, both decoders' turns, and the buffer.
- `procedure.dfy`, `rpc_service.dfy`, `rpc_server.dfy`, `base_server.dfy`: the server.
- `base_client.dfy`: the client.
- `stub_generator.dfy`: the service description and `replaceAll`.

## Model

| member | source | states |
|---|---|---|
| RpcErrors.Ordinal | src/utils/RpcError.hpp:18-22 | every error kind indexes a row of the code/message table |
| RpcErrors.AsCode | src/utils/RpcError.hpp:39-41 | every code lies in the range reserved for predefined errors, -32768..-32000 |
| RpcErrors.AsString | src/utils/RpcError.hpp:35-37 | every kind has a non-empty message |
| RpcErrors.FromErrorCode | src/utils/RpcError.hpp:46-56 | only the five standard codes are accepted, and the kind returned has exactly that code |
| RpcErrors.TableRowOfKind | src/utils/RpcError.hpp:62-72 | the code and message read for a kind come from that kind's own row |
| RpcErrors.StandardCodes | src/utils/RpcError.hpp:11-16 | the five codes and messages are -32700 "Parse error", -32600 "Invalid request", -32601 "Method not found", -32602 "Invalid params" and -32603 "Internal error" |
| RpcErrors.FromCodeInvertsAsCode | src/utils/RpcError.hpp:46-56 | fromErrorCode inverts asCode, so distinct kinds have distinct codes |
| Exceptions.RequestError | src/utils/Exception.hpp:48-52 | a request exception built without an id carries a null id |
| Exceptions.RequestErrorWithId | src/utils/Exception.hpp:43-47 | a request exception built with an id carries that id |
| Exceptions.What | src/utils/Exception.hpp:54-56 | `what()` is the message of the exception's error kind |
| Exceptions.ResponseError | src/utils/Exception.hpp:79-83 | a response exception without an id has no id and -1 in its id slot |
| Exceptions.ResponseErrorWithId | src/utils/Exception.hpp:84-88 | a response exception with an id has that id |
| Util.UserDone | src/utils/util.hpp:54-60 | the success response has exactly three members: version "2.0", the request's id (null when it had none) and the result, and it has no error member |
| Framing.Decimal | src/server/BaseServer.cc:138 | the length header is canonical decimal text, with no leading zero, whose value is the length |
| Framing.HeaderInt32 | src/server/BaseServer.cc:79-82 | an accepted header is the `to_string` text of its value, and that value lies in 0..INT32_MAX |
| Framing.DecimalHeader | src/server/BaseServer.cc:79-82 | conversely, the `to_string` text of every number in 0..INT32_MAX is accepted as a header and read as that number |
| Framing.FindCRLF | src/server/BaseServer.cc:70 | returns the position of the first CR LF, with none before it, or none when there is none |
| Framing.ServerStep | src/server/BaseServer.cc:69-94 | one server turn: with no CR LF it stops and keeps everything; a leading CR LF is dropped and the loop stops; every failure is invalid-request with a null id and drops nothing; a frame's body is at most 100 MiB and is the last bytes of what the turn drops |
| Framing.ServerStepZeroLength | src/server/BaseServer.cc:79-84 | a header reading 0 raises "invalid message length" and drops nothing |
| Framing.ServerStepWithinLimit | src/server/BaseServer.cc:86-94 | a header reading n in 1..100 MiB takes the n bytes after the CR LF as the frame once they are all there, and otherwise stops without dropping anything |
| Framing.ServerStepTooLong | src/server/BaseServer.cc:86-89 | a header reading an int32 above 100 MiB raises "message is too long" and drops nothing |
| Framing.ServerStepBadHeader | src/server/BaseServer.cc:79-84 | a header that is not the `to_string` text of any int32 raises "invalid message length" and drops nothing |
| Framing.ClientStep | src/client/BaseClient.cc:103-123 | one client turn: with no CR LF it stops and keeps everything; a leading CR LF drops two bytes and raises; every failure is a response error without an id; a stop drops nothing; a frame's body is below 64 KiB and is the last bytes of what the turn drops |
| Framing.ClientStepZeroLength | src/client/BaseClient.cc:109-114 | a header reading 0 drops the header and raises "invalid message length in header" |
| Framing.ClientStepWithinLimit | src/client/BaseClient.cc:116-123 | a header reading n in 1..65535 takes the n bytes after the CR LF as the frame once they are all there, and otherwise stops without dropping anything |
| Framing.ClientStepTooLong | src/client/BaseClient.cc:116-119 | a header reading an int32 of 65536 or more raises "message is too long" and drops nothing |
| Framing.ClientStepBadHeader | src/client/BaseClient.cc:109-114 | a header that is not the `to_string` text of any int32, an empty one included, drops the header and raises "invalid message length in header" |
| Framing.CanonicalIsDecimal | src/server/BaseServer.cc:79-82 | every accepted header is exactly the text `to_string` gives for its value |
| Framing.FirstCRLFAfterDecimal | src/server/BaseServer.cc:138 | in an encoded frame, the first CR LF is the one right after the length |
| Framing.EncodedFrameParts | src/server/BaseServer.cc:138 | in an encoded frame, the decoders find the header, read its value, and find the body plus CR LF right after it |
| Framing.ServerDecodesEncoded | src/client/BaseClient.cc:71-74 | round trip: a frame written by the client's framing is decoded whole by the server, which yields the body plus CR LF and drops exactly that frame |
| Framing.ClientDecodesEncoded | src/server/BaseServer.cc:138 | round trip: a frame below the client's limit, written by the server's framing, is decoded whole by the client |
| Framing.ServerFrameIsEncoded | src/server/BaseServer.cc:77-94 | conversely, every frame the server takes is the canonical header, then CR LF, then the bytes it yields |
| Framing.ClientFrameIsEncoded | src/client/BaseClient.cc:107-123 | the same for every frame the client takes |
| Framing.Buffer.Retrieve | src/server/BaseServer.cc:93 | exactly the first n readable bytes are dropped |
| Framing.Buffer.RetrieveAsString | src/server/BaseServer.cc:94 | returns the first n readable bytes and drops them |
| BaseServer.WrapExceptionShape | src/server/BaseServer.cc:121-130 | the error response is a version-2.0 object with the exception's id and no result; its error object holds the kind's standard code, the kind's message, and the detail as data |
| BaseServer.SendResponse | src/server/BaseServer.cc:133-146 | a framed response within the client's limit is decoded by the client as exactly one frame, carrying the serialised response |
| BaseServer.NonNull | src/server/BaseServer.cc:96-103 | the completion callback sends a delivered value exactly when it is not null |
| BaseServer.NonNullAppend | src/server/BaseServer.cc:96-103 | filtering frame by frame sends the same values as filtering all of them at once |
| BaseServer.ServerLoop | src/server/BaseServer.cc:67-106 | the loop never drops more than is readable; a header failure ends it with nothing delivered and nothing dropped; a stop (incomplete frame, no CR LF, leading CR LF) ends it without error or delivery |
| BaseServer.ServerLoopEncoded | src/server/BaseServer.cc:67-106 | on bytes that start with an encoded frame, the loop hands exactly that body to the handler, then goes on with the bytes after it, unless the handler raised |
| BaseServer.HandleMessageTurn | src/server/BaseServer.cc:70-104 | what one turn delivers, followed by what the loop does from the new buffer, is what the loop does from the old buffer; a turn that goes on has consumed bytes and raised nothing |
| BaseServer.HandleMessage | src/server/BaseServer.cc:67-106 | sends the non-null values the loop delivers, in order; reports the exception that ended the loop; leaves exactly the unconsumed bytes |
| BaseServer.HandleFrame | src/server/BaseServer.cc:93-96 | drops the header and the body, and hands exactly the body to the handler |
| BaseServer.OnMessage | src/server/BaseServer.cc:37-50 | a request exception from the loop sends its error response after everything already sent, and shuts the connection; a notify exception is not caught |
| Procedures.InitProcedure | src/server/Procedure.hpp:40-48 | the schema has one (name, type) entry per argument pair, in argument order |
| Procedures.Procedure.constructor | src/server/Procedure.hpp:22-32 | a procedure keeps its callback and the schema built from its argument pairs |
| Procedures.PositionalMatch | src/server/Procedure.cc:51-57 | the positional check passes exactly when each declared type matches the argument at the same position |
| Procedures.NamedMatch | src/server/Procedure.cc:58-68 | the by-name check passes exactly when every declared name is present with its declared type |
| Procedures.ValidateGeneric | src/server/Procedure.cc:38-73 | without `params`, a request passes exactly when the schema is empty; with `params`, exactly when they are non-empty, have the schema's size, and match positionally (array) or by name (object) |
| Procedures.ValidateRequestReturn | src/server/Procedure.cc:11-23 | a call passes exactly when it is an object or array whose params fit the schema; a failure is a request exception carrying the request's id, invalid-params for an object |
| Procedures.ValidateRequestNotify | src/server/Procedure.cc:25-36 | the same check for a notification, whose failure is a notify exception |
| Procedures.InvokeReturn | src/server/Procedure.cc:76-80 | the callback runs exactly when validation passes, and its response is the result; otherwise the validation error is raised |
| Procedures.InvokeNotify | src/server/Procedure.cc:83-87 | the callback runs exactly when validation passes; otherwise the validation error is raised |
| Procedures.NoParamsMemberAcceptedIffEmptySchema | src/server/Procedure.cc:40-43 | a request without `params` is accepted exactly when the procedure declares no parameter |
| Procedures.EmptyParamsRejected | src/server/Procedure.cc:46-48 | an explicitly empty `params` is refused, even by a procedure without parameters |
| Procedures.ScalarParamsRejected | src/server/Procedure.cc:69-71 | `params` that is neither an array nor an object is refused |
| Procedures.NamedParamsHaveNoExtraKeys | src/server/Procedure.cc:46-68 | by-name params that pass the check, against a schema of distinct names, carry no key besides the declared ones |
| Services.RpcService.AddProcedureReturn | src/server/RpcService.hpp:14-17 | registers a call procedure under a new name, and leaves the notification table alone |
| Services.RpcService.AddProcedureNotify | src/server/RpcService.hpp:19-22 | registers a notify procedure under a new name, and leaves the call table alone |
| Services.CallProcedureReturn | src/server/RpcService.cc:6-13 | an unknown method raises method-not-found with the request's id; a known one is invoked; every failure carries the request's id |
| Services.CallProcedureNotify | src/server/RpcService.cc:15-21 | an unknown method raises method-not-found as a notify exception; a known one is invoked; every failure is a notify exception |
| Server.FindValue | src/server/RpcServer.cc:12-44 | the lookup succeeds exactly when the member exists with one of the allowed types, and returns it; a failure is invalid-request with a null id |
| Server.FindValueWithId | src/server/RpcServer.cc:47-55 | the same lookup, whose failure carries the given id |
| Server.ValidateRequest | src/server/RpcServer.cc:220-241 | accepts exactly the calls with a string or int id, version "2.0", a string method other than "rpc.", and no member besides params; the error carries the id once it is read; "rpc." gives method-not-found and everything else invalid-request |
| Server.ValidateNotify | src/server/RpcServer.cc:244-260 | accepts exactly the well-formed notifications; a missing or mistyped version or method raises a request exception with a null id; the other failures are notify exceptions, method-not-found exactly for "rpc." |
| Server.IndexOf | src/server/RpcServer.cc:137 | finds the first position of the character, with none before it, or none when it is absent |
| Server.IndexOfJoin | src/server/RpcServer.cc:137-148 | splitting "service.method" at its first dot gives back a dot-free service name and the method part |
| Server.HandleSingleRequest | src/server/RpcServer.cc:131-156 | validation errors come first; every failure is a request exception, carrying the id for a valid call; a method without a dot fails with "missing service name in method" |
| Server.HandleSingleNotify | src/server/RpcServer.cc:194-217 | validation errors come first; a valid notification fails only with notify exceptions; no dot, or an empty service name, is invalid-request |
| Server.CallRouting | src/server/RpcServer.cc:137-155 | a valid call "service.method" reaches that service's call table exactly when the service is registered and the method part is non-empty; otherwise it fails with method-not-found and the call's id |
| Server.CallReachesCallback | src/server/RpcServer.cc:131-156 | end to end, a valid call to a registered procedure with conforming params returns its callback's response |
| Server.NotifyRouting | src/server/RpcServer.cc:199-216 | a valid notification reaches the service's notify table exactly when the service name is non-empty and registered and the method part is non-empty; an empty part is invalid-request, and an unknown service is method-not-found |
| Server.BatchElement | src/server/RpcServer.cc:170-181 | a non-object element fails as invalid-request; a notification never adds a reply; a call's reply or failure is what handling it alone gives |
| Server.BatchFrom | src/server/RpcServer.cc:167-191 | a batch never collects more responses than it has elements |
| Server.BatchIgnoresTail | src/server/RpcServer.cc:167-187 | elements after the first failure never affect the responses |
| Server.BatchAllReplies | src/server/RpcServer.cc:169-181 | a batch of calls that all succeed answers each one, in order |
| Server.BatchEndsWithFirstError | src/server/RpcServer.cc:184-187 | a batch whose first failure is a request exception ends with that exception's error response |
| Server.BatchCollects | src/server/RpcServer.cc:167-191 | a batch collects, in order, the response of every successful call before its first failure, nothing for the notifications among them, and then the error response of that failure when it is a request exception and nothing when it is a notify exception; without a failure it collects the calls' responses up to the end |
| Server.RequestOutcome | src/server/RpcServer.cc:106-129 | a parse error is raised as parse-error; a single call delivers its response, a notification delivers nothing, and a non-empty batch delivers one array; an empty batch or a scalar is invalid-request; at most one value is delivered |
| Server.RpcServer.AddService | src/server/RpcServer.cc:101-104 | registers a service under a new name |
| Server.RpcServer.HandleBatchRequests | src/server/RpcServer.cc:159-192 | an empty batch is refused; otherwise the array of collected responses is delivered once |
| Server.RpcServer.CollectBatch | src/server/RpcServer.cc:167-191 | the loop collects exactly the batch's responses, up to and including the first failure, and leaves delivery to the release |
| Server.RpcServer.HandleRequest | src/server/RpcServer.cc:106-129 | returns exactly the outcome that handleRequest specifies for the parsed frame |
| Server.RpcServer.OnMessage | src/server/BaseServer.cc:37-50 | the base decoder loop with this server's handleRequest as the frame handler: what is sent, the shutdown, the bytes left |
| Server.ThreadSafeBatchResponse.constructor | src/server/RpcServer.cc:69-84 | the collection starts empty and not yet delivered |
| Server.ThreadSafeBatchResponse.AddResponse | src/server/RpcServer.cc:73-76 | appends one response, only before delivery |
| Server.ThreadSafeBatchResponse.Release | src/server/RpcServer.cc:86-88 | delivers the collected responses as one array, once |
| Client.FindTyped | src/client/BaseClient.cc:14-23 | succeeds exactly when the member exists with the given type, and returns it; a failure carries no id |
| Client.FindTypedWithId | src/client/BaseClient.cc:26-33 | the same check, whose failure carries the given id |
| Client.ValidateResponse | src/client/BaseClient.cc:185-201 | accepts exactly the responses with three members, an int32 id, version "2.0", and a result or an error object, and returns the id; an error carries the id exactly when the id had been read |
| Client.ErrorResponseValidates | src/client/BaseClient.cc:185-201 | the server's error response for a request with an int32 id passes the client's check, with that id |
| Client.SuccessResponseValidates | src/utils/util.hpp:54-60 | the server's success response for a request with an int32 id passes the client's check, with that id |
| Client.SendRequest | src/client/BaseClient.cc:66-84 | a framed request within the server's limit is decoded by the server as exactly one frame, carrying the serialised request |
| Client.ClientLoop | src/client/BaseClient.cc:102-127 | the client loop never drops more than is readable |
| Client.PendingFiresOnce | src/client/BaseClient.cc:157-182 | a valid response for a pending id fires that callback once, with the result, or else with the error object and the error flag, and retires the id; the same response again fires nothing |
| Client.UnknownIdIgnored | src/client/BaseClient.cc:161-165 | a valid response for an id that is not pending changes nothing |
| Client.SuccessFiresCallback | src/client/BaseClient.cc:167-170 | the server's success response fires the pending call's callback with the handler's result |
| Client.ErrorFiresCallback | src/client/BaseClient.cc:171-176 | the server's error response fires the pending call's callback with the error object and the error flag |
| Client.SingleRetires | src/client/BaseClient.cc:157-182 | handling one response only removes pending entries and leaves every remaining entry as it was; each callback fired is the callback of an entry it removed, no entry fires twice, and every removed entry fires, so each fires exactly once |
| Client.BatchRetires | src/client/BaseClient.cc:142-151 | the same for a batch response |
| Client.ResponseRetires | src/client/BaseClient.cc:129-155 | the same for any frame |
| Client.ClientLoopRetires | src/client/BaseClient.cc:102-127 | the same for any received bytes, however many frames they hold |
| Client.ClientLoopEncoded | src/client/BaseClient.cc:102-127 | on bytes that start with an encoded frame, the loop handles exactly that body, then goes on with the bytes after it, unless it raised |
| Client.BaseClient.constructor | src/client/BaseClient.cc:37-42 | ids start at 0, with nothing pending |
| Client.BaseClient.SendCall | src/client/BaseClient.cc:53-60 | the call is tagged with the next id, which was not pending; its callback is kept under that id; the counter advances; the tagged call is framed |
| Client.BaseClient.SendNotify | src/client/BaseClient.cc:62-64 | the notification is framed as it is |
| Client.BaseClient.HandleSingleResponse | src/client/BaseClient.cc:157-182 | the pending map, the callbacks fired and the error are exactly what handleSingleResponse specifies; ids stay below the counter |
| Client.BaseClient.HandleBatchResponse | src/client/BaseClient.cc:142-151 | each element in order, stopping at the first one that raises, as the batch specification says |
| Client.BaseClient.HandleResponse | src/client/BaseClient.cc:129-155 | exactly what handleResponse specifies for the parsed frame |
| Client.BaseClient.HandleFrame | src/client/BaseClient.cc:122-124 | drops the header and the body, and handles exactly the body |
| Client.BaseClient.HandleMessageTurn | src/client/BaseClient.cc:103-124 | what one turn fires, followed by what the loop does from the new buffer, is what the loop does from the old buffer |
| Client.BaseClient.HandleMessage | src/client/BaseClient.cc:102-127 | the callbacks fired, the pending map, the error and the bytes left are those of the client loop |
| Client.BaseClient.OnMessage | src/client/BaseClient.cc:86-100 | a response error with an id also drops that pending callback without firing it |
| Stub.ParamsErrorFromNone | src/stub/StubGenerator.cc:71-83 | the member walk finds no complaint exactly when the keys are distinct and no value from there on is null |
| Stub.ParamsCheckMeans | src/stub/StubGenerator.cc:68-84 | params pass exactly when they are an object with pairwise distinct keys and no null value |
| Stub.ValidateParams | src/stub/StubGenerator.cc:68-84 | the loop over the members, with the set of keys seen so far, computes exactly the specified check, so it passes exactly the objects with distinct keys and no null value |
| Stub.ValidateReturns | src/stub/StubGenerator.cc:87-99 | `returns` is refused, with "bad returns type", exactly when it is null or an array |
| Stub.AsWrittenDivergesOnObject | src/stub/StubGenerator.cc:93-95 | as written, the check never returns on an object, however deep the recursion may go |
| Stub.AsWrittenAgreesOffObjects | src/stub/StubGenerator.cc:88-98 | on any other value, the check as written answers at once, and agrees with the corrected check |
| Stub.RpcEntry | src/stub/StubGenerator.cc:36-65 | an accepted entry is an object with a string name; it becomes a call entry exactly when it has `returns` |
| Stub.RpcEntryMeans | src/stub/StubGenerator.cc:36-65 | an entry is accepted exactly when it is well formed; it keeps its name and returns, and its params, which default to an empty object |
| Stub.AddEntry | src/stub/StubGenerator.cc:57-64 | a call entry is pushed onto the call list, and a notification entry onto the notification list; the other list and the name are untouched |
| Stub.CollectRpcsAccepts | src/stub/StubGenerator.cc:30-33 | the entries are collected exactly when every one of them is accepted |
| Stub.CollectRpcsKeepsOrder | src/stub/StubGenerator.cc:30-33 | collecting keeps the service name and appends the call entries and the notification entries, each in description order |
| Stub.EntriesSplit | src/stub/StubGenerator.cc:57-64 | each accepted entry lands in exactly one of the two lists |
| Stub.ProtoInfoMeans | src/stub/StubGenerator.cc:16-34 | a description is accepted exactly when it is well formed; then the service keeps its name, and calls and notifications are listed in order, every entry exactly once |
| Stub.StubGenerator.ParseRpc | src/stub/StubGenerator.cc:36-65 | a refused entry leaves the lists unchanged and reports its error; an accepted entry is appended to its list |
| Stub.StubGenerator.ParseProto | src/stub/StubGenerator.cc:16-34 | a fresh generator ends with exactly the service information of the description, or reports the description's first error |
| Stub.StubGenerator.ParseRpcs | src/stub/StubGenerator.cc:30-33 | the loop parses the entries in order and stops at the first one refused |
| Stub.NewStubGenerator | src/stub/StubGenerator.hpp:12-14 | a generator is built exactly for an accepted description, and holds what was parsed from it; otherwise the error is raised |
| Stub.FindFrom | src/stub/StubGenerator.hpp:62 | finds the leftmost occurrence at or after a position, or none |
| Stub.Find | src/stub/StubGenerator.hpp:62 | finds the leftmost occurrence, or none |
| Stub.ReplaceFirst | src/stub/StubGenerator.hpp:63 | the text before the occurrence is kept, the occurrence becomes `to`, and the text after it is kept |
| Stub.ReplaceAllLeavesNone | src/stub/StubGenerator.hpp:60-66 | after replaceAll, no occurrence of `from` is left |
| Stub.ReplaceShrinks | src/stub/StubGenerator.hpp:60-66 | each replacement shortens the text, or removes an occurrence of the first character of `from`, so the loop ends |
| Stub.ReplaceAllUnchanged | src/stub/StubGenerator.hpp:60-66 | text without an occurrence is left as it is |
| Stub.ReplaceAll | src/stub/StubGenerator.hpp:60-66 | the loop computes exactly the specified replacement, and leaves no occurrence of `from` |

## Left out

- Networking, the event loop, connections, threads, locking and logging are left out. Sending is modelled as the sequence of values sent, and the connection shutdown as a flag.
- The JSON library (parser, writer, `Document`) is left out. It is represented by the `Value` type and the parser and serializer parameters. A length header is read as canonical decimal digits; JSON whitespace around the number is not modelled.
- High-water-mark flow control (`onHighWaterMark`, `onWriteComplete`), `onConnection`, `start`, and `setConnectionCallback` are left out: they only touch the transport.
- Time-outs are left out. The source never fires a callback with the time-out flag set, so `Invocation` carries only the error flag.
- The code emitters (`ServiceStubGenerator.hpp`, `ClientStubGenerator.hpp`), `genStub`, `genStubClassName` and `main.cc` are not part of this model.
- Client.BaseClient.SendCall: requires the id counter to be below the int64 maximum. The source's `int64_t id_` would overflow after that many calls.
- Client ids above the int32 range are never matched by a response, because validateResponse accepts only int32 ids. The model keeps this: such calls stay pending for ever.
- Stub.ParamsCheck: a `params` that is not an object is refused with "params must be object". The source iterates `getObject()` on it, which the JSON library does not define for other types.
- Stub.ReplaceAll: requires that `from` is non-empty, and that each replacement either shortens the text or removes a character `from` starts with. Otherwise the source's loop may never end, for example with `from` = "a" and `to` = "aa". The requires also excludes some inputs on which the loop does end, such as `from` = "ab" and `to` = "ba"; the model promises nothing for those.
- Server.BatchFrom: states only a bound on the number of responses. What the batch collects is stated by Server.BatchCollects, with Server.BatchIgnoresTail, Server.BatchAllReplies and Server.BatchEndsWithFirstError beside it.
- Server.RequestOutcome: treats a call procedure as handing exactly one response to its `done` callback, at once. A source procedure may call `done` never, several times, or later from another thread. Every such call would send a response, and in a batch a late call would use the `responses` captured by reference at src/server/RpcServer.cc:180 after it is gone. So the bound of at most one delivered value, and the single delivery of Server.ThreadSafeBatchResponse.Release, hold only for procedures that call `done` once before returning.
- The source has spelling slips that would stop it from compiling. They are modelled as their evident intent:
  - `n > ` at src/server/Procedure.hpp:29 is read as `n > 0`;
  - `std::forward(nameAndType...)` at src/server/Procedure.hpp:47;
  - `BaseServer:onHighWaterMark` at src/server/BaseServer.cc:29;
  - `sendRespense` at src/server/BaseServer.cc:45 and :98.
- BaseServer.WrapException: the `error` member is built as an empty object that receives `code`, `message` and `data`. At src/server/BaseServer.cc:124 the source passes `static_cast<int>` of the object type tag. The JSON library reads that as an int32 member, on which the `addMember` calls at lines 125-127 are not defined. The model follows the evident intent, and so do BaseServer.WrapExceptionShape, Client.ErrorResponseValidates and Client.ErrorFiresCallback, which build on it.
- The server reads the reserved method name as the exact string "rpc.", as the source does, not as a prefix.

## Findings

| source | as written | input that shows it | evidently intended | confidence | as-written member | corrected member |
|---|---|---|---|---|---|---|
| src/stub/StubGenerator.cc:87-99 | The `returns` check is defined under the name `validateParams`, and its object branch calls `validateReturns` on the same value (line 94). That is a call to itself, with no way out. | any rpc entry whose `returns` is an object, such as `{"name": "add", "returns": {"type": "int"}}` | an object `returns` is accepted; only null and arrays are refused | not executed; the recursion is certain, the intended handling of objects is inferred | Stub.ValidateReturnsAsWritten (Stub.AsWrittenDivergesOnObject) | Stub.ValidateReturns |
