/**
 * The input side of the stub generator: a service description
 *   { "name": <string>, "rpc": [ { "name": <string>, "params"?: {...}, "returns"?: ... }, ... ] }
 * is checked and turned into the service information the code emitters
 * read, with calls (entries that have `returns`) and notifications kept
 * apart, each list in description order.  Also the `replaceAll` text
 * routine the emitters use to fill their templates.
 */
module Stub {
  import opened Results
  import opened Json
  import opened Exceptions

  datatype RpcReturn = RpcReturn(name: string, params: Value, returnSpec: Value)
  datatype RpcNotify = RpcNotify(name: string, params: Value)
  datatype ServiceInfo = ServiceInfo(name: string, rpcReturn: seq<RpcReturn>, rpcNotify: seq<RpcNotify>)

  /** What one checked rpc entry becomes. */
  datatype Entry = ReturnEntry(rr: RpcReturn) | NotifyEntry(rn: RpcNotify)

  // ---------------------------------------------------------------- params

  /** The keys of some members. */
  function KeysOf(ms: seq<Member>): (keys: set<string>)
    ensures forall j :: 0 <= j < |ms| ==> ms[j].key in keys
    ensures forall k :: k in keys ==> exists j :: 0 <= j < |ms| && ms[j].key == k
  {
    if |ms| == 0 then {} else KeysOf(ms[..|ms| - 1]) + {ms[|ms| - 1].key}
  }

  predicate DistinctKeys(ms: seq<Member>) {
    forall j, k :: 0 <= j < k < |ms| ==> ms[j].key != ms[k].key
  }

  predicate NoNullValue(ms: seq<Member>) {
    forall j :: 0 <= j < |ms| ==> !ms[j].value.Null?
  }

  /** The first complaint about the members from i on: a key seen before, else a null value. */
  function ParamsErrorFrom(ms: seq<Member>, i: nat): Option<StubException>
    requires i <= |ms|
    decreases |ms| - i
  {
    if i == |ms| then None
    else if ms[i].key in KeysOf(ms[..i]) then Some(StubException("duplicate param name"))
    else if ms[i].value.Null? then Some(StubException("bad param type"))
    else ParamsErrorFrom(ms, i + 1)
  }

  /** The check of `validateParams` as a specification; a `params` that is not an object is refused. */
  function ParamsCheck(params: Value): Option<StubException> {
    if params.Object? then ParamsErrorFrom(params.members, 0)
    else Some(StubException("params must be object"))
  }

  lemma {:induction false} ParamsErrorFromNone(ms: seq<Member>, i: nat)
    requires i <= |ms|
    requires forall j, k :: 0 <= j < k < i ==> ms[j].key != ms[k].key
    ensures ParamsErrorFrom(ms, i).None? <==>
              DistinctKeys(ms) && forall j :: i <= j < |ms| ==> !ms[j].value.Null?
    decreases |ms| - i
  {
    if i < |ms| {
      var seen := KeysOf(ms[..i]);
      if ms[i].key in seen {
        var j :| 0 <= j < i && ms[..i][j].key == ms[i].key;
        assert ms[j].key == ms[i].key;
      } else {
        forall j | 0 <= j < i
          ensures ms[j].key != ms[i].key
        {
          assert ms[..i][j].key in seen;
        }
        ParamsErrorFromNone(ms, i + 1);
      }
    }
  }

  /** A `params` passes exactly when it is an object whose keys are pairwise distinct and none of whose values is null. */
  lemma ParamsCheckMeans(params: Value)
    ensures ParamsCheck(params).None? <==>
              params.Object? && DistinctKeys(params.members) && NoNullValue(params.members)
  {
    if params.Object? {
      ParamsErrorFromNone(params.members, 0);
    }
  }

  /** `validateParams`: walk the members in order, remembering the keys seen. */
  method ValidateParams(params: Value) returns (error: Option<StubException>)
    ensures error == ParamsCheck(params)
  {
    if !params.Object? {
      return Some(StubException("params must be object"));
    }
    var ms := params.members;
    var seen: set<string> := {};
    var i := 0;
    while i < |ms|
      invariant 0 <= i <= |ms|
      invariant seen == KeysOf(ms[..i])
      invariant ParamsErrorFrom(ms, 0) == ParamsErrorFrom(ms, i)
      decreases |ms| - i
    {
      if ms[i].key in seen {
        return Some(StubException("duplicate param name"));
      }
      if ms[i].value.Null? {
        return Some(StubException("bad param type"));
      }
      assert ParamsErrorFrom(ms, i) == ParamsErrorFrom(ms, i + 1);
      assert ms[..i + 1][..i] == ms[..i];
      assert KeysOf(ms[..i + 1]) == seen + {ms[i].key};
      seen := seen + {ms[i].key};
      i := i + 1;
    }
    error := None;
  }

  // --------------------------------------------------------------- returns

  /** The `returns` check with its object branch accepting: only null and array are refused. */
  function ValidateReturns(ret: Value): (error: Option<StubException>)
    ensures error.None? <==> !ret.Null? && !ret.Array?
    ensures error.Some? ==> error.value == StubException("bad returns type")
  {
    match ret
    case Null => Some(StubException("bad returns type"))
    case Array(_) => Some(StubException("bad returns type"))
    case _ => None
  }

  /**
   * The `returns` check as written, where the object branch calls the check
   * again on the same value. `fuel` bounds the number of nested calls; None
   * means no answer came within that many.
   */
  function ValidateReturnsAsWritten(ret: Value, fuel: nat): Option<Option<StubException>>
    decreases fuel
  {
    if fuel == 0 then None
    else
      match ret
      case Null => Some(Some(StubException("bad returns type")))
      case Array(_) => Some(Some(StubException("bad returns type")))
      case Object(_) => ValidateReturnsAsWritten(ret, fuel - 1)
      case _ => Some(None)
  }

  /** As written, the check never returns on an object, however many nested calls are allowed. */
  lemma {:induction false} AsWrittenDivergesOnObject(ret: Value, fuel: nat)
    requires ret.Object?
    ensures ValidateReturnsAsWritten(ret, fuel).None?
    decreases fuel
  {
    if fuel > 0 {
      AsWrittenDivergesOnObject(ret, fuel - 1);
    }
  }

  /** On every other value the check as written answers at once, as the corrected one does. */
  lemma AsWrittenAgreesOffObjects(ret: Value, fuel: nat)
    requires !ret.Object? && fuel > 0
    ensures ValidateReturnsAsWritten(ret, fuel) == Some(ValidateReturns(ret))
  {
  }

  // ------------------------------------------------------------------ rpcs

  /** `parseRpc` as a specification: one rpc entry, checked, with a missing `params` read as an empty object. */
  function RpcEntry(rpc: Value): (r: Result<Entry, StubException>)
    ensures r.Ok? ==> rpc.Object? && FindMember(rpc, "name").Some? && FindMember(rpc, "name").value.String?
    ensures r.Ok? ==> (r.value.ReturnEntry? <==> HasMember(rpc, "returns"))
  {
    if !rpc.Object? then Err(StubException("rpc definition must be object"))
    else
      match FindMember(rpc, "name")
      case None => Err(StubException("missing name in rpc definition"))
      case Some(name) =>
        if !name.String? then Err(StubException("rpc name must be string"))
        else
          var params := FindMember(rpc, "params");
          var ret := FindMember(rpc, "returns");
          if params.Some? && ParamsCheck(params.value).Some? then Err(ParamsCheck(params.value).value)
          else if ret.Some? && ValidateReturns(ret.value).Some? then Err(ValidateReturns(ret.value).value)
          else
            var paramsValue := params.GetOr(Object([]));
            if ret.Some? then Ok(ReturnEntry(RpcReturn(name.s, paramsValue, ret.value)))
            else Ok(NotifyEntry(RpcNotify(name.s, paramsValue)))
  }

  /** What a well-formed rpc entry is. */
  predicate IsValidRpc(rpc: Value) {
    && rpc.Object?
    && FindMember(rpc, "name").Some? && FindMember(rpc, "name").value.String?
    && (HasMember(rpc, "params") ==>
          var p := FindMember(rpc, "params").value;
          p.Object? && DistinctKeys(p.members) && NoNullValue(p.members))
    && (HasMember(rpc, "returns") ==>
          var t := FindMember(rpc, "returns").value;
          !t.Null? && !t.Array?)
  }

  /** An entry is accepted exactly when it is well formed, and then it keeps its name, params (an empty object when absent) and returns. */
  lemma RpcEntryMeans(rpc: Value)
    ensures RpcEntry(rpc).Ok? <==> IsValidRpc(rpc)
    ensures RpcEntry(rpc).Ok? ==>
              var name := FindMember(rpc, "name").value.s;
              var params := MemberOrNull(rpc, "params");
              var paramsValue := if HasMember(rpc, "params") then params else Object([]);
              RpcEntry(rpc).value ==
                if HasMember(rpc, "returns") then ReturnEntry(RpcReturn(name, paramsValue, MemberOrNull(rpc, "returns")))
                else NotifyEntry(RpcNotify(name, paramsValue))
  {
    if rpc.Object? && HasMember(rpc, "params") {
      ParamsCheckMeans(FindMember(rpc, "params").value);
    }
  }

  /** `push_back` of a checked entry onto the list it belongs to. */
  function AddEntry(info: ServiceInfo, entry: Entry): (r: ServiceInfo)
    ensures r.name == info.name
    ensures entry.ReturnEntry? ==> r.rpcReturn == info.rpcReturn + [entry.rr] && r.rpcNotify == info.rpcNotify
    ensures entry.NotifyEntry? ==> r.rpcNotify == info.rpcNotify + [entry.rn] && r.rpcReturn == info.rpcReturn
  {
    match entry
    case ReturnEntry(rr) => info.(rpcReturn := info.rpcReturn + [rr])
    case NotifyEntry(rn) => info.(rpcNotify := info.rpcNotify + [rn])
  }

  /** Every rpc entry of a description, each checked on its own. */
  function RpcEntries(rpcs: seq<Value>): (r: seq<Result<Entry, StubException>>)
    ensures |r| == |rpcs|
    ensures forall j :: 0 <= j < |rpcs| ==> r[j] == RpcEntry(rpcs[j])
  {
    seq(|rpcs|, j requires 0 <= j < |rpcs| => RpcEntry(rpcs[j]))
  }

  /** The loop of `parseProto` from entry i on: entries are added in order until one is refused. */
  function CollectRpcs(info: ServiceInfo, entries: seq<Result<Entry, StubException>>, i: nat): Result<ServiceInfo, StubException>
    requires i <= |entries|
    decreases |entries| - i
  {
    if i == |entries| then Ok(info)
    else
      match entries[i]
      case Err(e) => Err(e)
      case Ok(entry) => CollectRpcs(AddEntry(info, entry), entries, i + 1)
  }

  /** `parseProto` as a specification. */
  function ProtoInfo(proto: Value): Result<ServiceInfo, StubException> {
    if !proto.Object? then Err(StubException("expect object"))
    else if Size(proto) != 2 then Err(StubException("expect 'name' and 'rpc' fields in object"))
    else
      match FindMember(proto, "name")
      case None => Err(StubException("missing service name"))
      case Some(name) =>
        if !name.String? then Err(StubException("type of service name must be string"))
        else
          match FindMember(proto, "rpc")
          case None => Err(StubException("missing service rpc definition"))
          case Some(rpc) =>
            if !rpc.Array? then Err(StubException("rpc field must be array"))
            else CollectRpcs(ServiceInfo(name.s, [], []), RpcEntries(rpc.elems), 0)
  }

  /** The call entries among entries[i..], in order. */
  function ReturnsIn(entries: seq<Result<Entry, StubException>>, i: nat): seq<RpcReturn>
    requires i <= |entries|
    decreases |entries| - i
  {
    if i == |entries| then []
    else
      (match entries[i] case Ok(ReturnEntry(rr)) => [rr] case _ => [])
      + ReturnsIn(entries, i + 1)
  }

  /** The notification entries among entries[i..], in order. */
  function NotifiesIn(entries: seq<Result<Entry, StubException>>, i: nat): seq<RpcNotify>
    requires i <= |entries|
    decreases |entries| - i
  {
    if i == |entries| then []
    else
      (match entries[i] case Ok(NotifyEntry(rn)) => [rn] case _ => [])
      + NotifiesIn(entries, i + 1)
  }

  /** The entries are collected exactly when every one of them is accepted. */
  lemma {:induction false} CollectRpcsAccepts(info: ServiceInfo, entries: seq<Result<Entry, StubException>>, i: nat)
    requires i <= |entries|
    ensures CollectRpcs(info, entries, i).Ok? <==> forall j :: i <= j < |entries| ==> entries[j].Ok?
    decreases |entries| - i
  {
    if i < |entries| {
      match entries[i]
      case Err(_) =>
      case Ok(entry) =>
        CollectRpcsAccepts(AddEntry(info, entry), entries, i + 1);
    }
  }

  /** Collected entries keep the service name and are appended, calls and notifications each in order. */
  lemma {:induction false} CollectRpcsKeepsOrder(info: ServiceInfo, entries: seq<Result<Entry, StubException>>, i: nat)
    requires i <= |entries| && CollectRpcs(info, entries, i).Ok?
    ensures CollectRpcs(info, entries, i).value.name == info.name
    ensures CollectRpcs(info, entries, i).value.rpcReturn == info.rpcReturn + ReturnsIn(entries, i)
    ensures CollectRpcs(info, entries, i).value.rpcNotify == info.rpcNotify + NotifiesIn(entries, i)
    decreases |entries| - i
  {
    if i < |entries| {
      var next := AddEntry(info, entries[i].value);
      CollectRpcsKeepsOrder(next, entries, i + 1);
      AddEntryStep(info, entries, i);
    }
  }

  /** Adding entry i to the lists leaves what remains to be added from entry i + 1 on. */
  lemma AddEntryStep(info: ServiceInfo, entries: seq<Result<Entry, StubException>>, i: nat)
    requires i < |entries| && entries[i].Ok?
    ensures var next := AddEntry(info, entries[i].value);
            && info.rpcReturn + ReturnsIn(entries, i) == next.rpcReturn + ReturnsIn(entries, i + 1)
            && info.rpcNotify + NotifiesIn(entries, i) == next.rpcNotify + NotifiesIn(entries, i + 1)
  {
    match entries[i].value
    case ReturnEntry(rr) =>
      assert ReturnsIn(entries, i) == [rr] + ReturnsIn(entries, i + 1);
      assert NotifiesIn(entries, i) == NotifiesIn(entries, i + 1);
      ConcatAssoc(info.rpcReturn, [rr], ReturnsIn(entries, i + 1));
    case NotifyEntry(rn) =>
      assert NotifiesIn(entries, i) == [rn] + NotifiesIn(entries, i + 1);
      assert ReturnsIn(entries, i) == ReturnsIn(entries, i + 1);
      ConcatAssoc(info.rpcNotify, [rn], NotifiesIn(entries, i + 1));
  }

  /** When every entry is accepted, each lands in exactly one of the two lists. */
  lemma {:induction false} EntriesSplit(entries: seq<Result<Entry, StubException>>, i: nat)
    requires i <= |entries|
    requires forall j :: i <= j < |entries| ==> entries[j].Ok?
    ensures |ReturnsIn(entries, i)| + |NotifiesIn(entries, i)| == |entries| - i
    decreases |entries| - i
  {
    if i < |entries| {
      EntriesSplit(entries, i + 1);
    }
  }

  /** What a well-formed service description is. */
  predicate IsValidProto(proto: Value) {
    && proto.Object? && Size(proto) == 2
    && FindMember(proto, "name").Some? && FindMember(proto, "name").value.String?
    && FindMember(proto, "rpc").Some? && FindMember(proto, "rpc").value.Array?
    && forall j :: 0 <= j < |FindMember(proto, "rpc").value.elems| ==> IsValidRpc(FindMember(proto, "rpc").value.elems[j])
  }

  /**
   * A description is accepted exactly when it is well formed; then the
   * service keeps its name, and every rpc entry lands in exactly one list,
   * calls and notifications each in description order.
   */
  lemma ProtoInfoMeans(proto: Value)
    ensures ProtoInfo(proto).Ok? <==> IsValidProto(proto)
    ensures ProtoInfo(proto).Ok? ==>
              var info := ProtoInfo(proto).value;
              var rpcs := FindMember(proto, "rpc").value.elems;
              && info.name == FindMember(proto, "name").value.s
              && info.rpcReturn == ReturnsIn(RpcEntries(rpcs), 0)
              && info.rpcNotify == NotifiesIn(RpcEntries(rpcs), 0)
              && |info.rpcReturn| + |info.rpcNotify| == |rpcs|
  {
    if proto.Object? && Size(proto) == 2 && FindMember(proto, "name").Some? && FindMember(proto, "name").value.String?
       && FindMember(proto, "rpc").Some? && FindMember(proto, "rpc").value.Array? {
      var rpcs := FindMember(proto, "rpc").value.elems;
      var info := ServiceInfo(FindMember(proto, "name").value.s, [], []);
      var entries := RpcEntries(rpcs);
      CollectRpcsAccepts(info, entries, 0);
      if CollectRpcs(info, entries, 0).Ok? {
        CollectRpcsKeepsOrder(info, entries, 0);
        EntriesSplit(entries, 0);
      }
      forall j | 0 <= j < |rpcs|
        ensures RpcEntry(rpcs[j]).Ok? <==> IsValidRpc(rpcs[j])
      {
        RpcEntryMeans(rpcs[j]);
      }
    }
  }

  /** The generator's service information: its name and the two lists of entries. */
  class StubGenerator {
    var serviceInfo: ServiceInfo

    constructor ()
      ensures serviceInfo == ServiceInfo("", [], [])
    {
      serviceInfo := ServiceInfo("", [], []);
    }

    /** `parseRpc`: check one entry, then append it to the list it belongs to. */
    method ParseRpc(rpc: Value) returns (error: Option<StubException>)
      modifies this
      ensures RpcEntry(rpc).Err? ==> error == Some(RpcEntry(rpc).error) && serviceInfo == old(serviceInfo)
      ensures RpcEntry(rpc).Ok? ==> error.None? && serviceInfo == AddEntry(old(serviceInfo), RpcEntry(rpc).value)
    {
      if !rpc.Object? {
        return Some(StubException("rpc definition must be object"));
      }
      var name := FindMember(rpc, "name");
      if name.None? {
        return Some(StubException("missing name in rpc definition"));
      }
      if !name.value.String? {
        return Some(StubException("rpc name must be string"));
      }
      var params := FindMember(rpc, "params");
      if params.Some? {
        error := ValidateParams(params.value);
        if error.Some? {
          return;
        }
      }
      var ret := FindMember(rpc, "returns");
      if ret.Some? {
        error := ValidateReturns(ret.value);
        if error.Some? {
          return;
        }
      }
      var paramsValue := if params.Some? then params.value else Object([]);
      if ret.Some? {
        serviceInfo := serviceInfo.(rpcReturn := serviceInfo.rpcReturn + [RpcReturn(name.value.s, paramsValue, ret.value)]);
      } else {
        serviceInfo := serviceInfo.(rpcNotify := serviceInfo.rpcNotify + [RpcNotify(name.value.s, paramsValue)]);
      }
      error := None;
    }

    /** `parseProto`: check the envelope, record the name, then parse the rpc entries in order. */
    method ParseProto(proto: Value) returns (error: Option<StubException>)
      requires serviceInfo == ServiceInfo("", [], [])
      modifies this
      ensures ProtoInfo(proto).Err? ==> error == Some(ProtoInfo(proto).error)
      ensures ProtoInfo(proto).Ok? ==> error.None? && serviceInfo == ProtoInfo(proto).value
    {
      if !proto.Object? {
        return Some(StubException("expect object"));
      }
      if Size(proto) != 2 {
        return Some(StubException("expect 'name' and 'rpc' fields in object"));
      }
      var name := FindMember(proto, "name");
      if name.None? {
        return Some(StubException("missing service name"));
      }
      if !name.value.String? {
        return Some(StubException("type of service name must be string"));
      }
      serviceInfo := serviceInfo.(name := name.value.s);
      var rpc := FindMember(proto, "rpc");
      if rpc.None? {
        return Some(StubException("missing service rpc definition"));
      }
      if !rpc.value.Array? {
        return Some(StubException("rpc field must be array"));
      }
      assert serviceInfo == ServiceInfo(name.value.s, [], []);
      error := ParseRpcs(rpc.value.elems);
    }

    /** The loop of `parseProto`: parse the entries in order, stopping at the first one refused. */
    method ParseRpcs(rpcs: seq<Value>) returns (error: Option<StubException>)
      modifies this
      ensures var total := CollectRpcs(old(serviceInfo), RpcEntries(rpcs), 0);
              && (total.Err? ==> error == Some(total.error))
              && (total.Ok? ==> error.None? && serviceInfo == total.value)
    {
      ghost var entries := RpcEntries(rpcs);
      ghost var total := CollectRpcs(serviceInfo, entries, 0);
      var i := 0;
      while i < |rpcs|
        invariant 0 <= i <= |rpcs|
        invariant total == CollectRpcs(serviceInfo, entries, i)
        decreases |rpcs| - i
      {
        error := ParseRpc(rpcs[i]);
        if error.Some? {
          return;
        }
        i := i + 1;
      }
      error := None;
    }
  }

  /**
   * The generator's constructor, which runs `parseProto`: a generator exists
   * only for an accepted description, and holds what was parsed from it.
   */
  method NewStubGenerator(proto: Value) returns (r: Result<StubGenerator, StubException>)
    ensures r.Ok? <==> ProtoInfo(proto).Ok?
    ensures r.Ok? ==> fresh(r.value) && r.value.serviceInfo == ProtoInfo(proto).value
    ensures r.Err? ==> r.error == ProtoInfo(proto).error
  {
    var generator := new StubGenerator();
    var error := generator.ParseProto(proto);
    if error.Some? {
      return Err(error.value);
    }
    return Ok(generator);
  }

  // ------------------------------------------------------------ replaceAll

  predicate OccursAt(s: string, from: string, i: nat) {
    i + |from| <= |s| && s[i..i + |from|] == from
  }

  /** The leftmost position from k on where `from` occurs. */
  function FindFrom(s: string, from: string, k: nat): (r: Option<nat>)
    ensures r.Some? ==> k <= r.value && OccursAt(s, from, r.value)
    ensures r.Some? ==> forall j :: k <= j < r.value ==> !OccursAt(s, from, j)
    ensures r.None? ==> forall j :: k <= j <= |s| ==> !OccursAt(s, from, j)
    decreases |s| + 1 - k
  {
    if k > |s| then None
    else if OccursAt(s, from, k) then Some(k)
    else FindFrom(s, from, k + 1)
  }

  /** `std::string::find`: the leftmost position where `from` occurs. */
  function Find(s: string, from: string): (r: Option<nat>)
    ensures r.Some? ==> OccursAt(s, from, r.value) && forall j :: 0 <= j < r.value ==> !OccursAt(s, from, j)
    ensures r.None? ==> forall j :: 0 <= j <= |s| ==> !OccursAt(s, from, j)
  {
    FindFrom(s, from, 0)
  }

  /** The number of times `c` occurs in `s`. */
  function CountOf(s: string, c: char): nat
    decreases |s|
  {
    if |s| == 0 then 0 else (if s[0] == c then 1 else 0) + CountOf(s[1..], c)
  }

  lemma {:induction false} CountOfAppend(a: string, b: string, c: char)
    ensures CountOf(a + b, c) == CountOf(a, c) + CountOf(b, c)
    decreases |a|
  {
    if |a| > 0 {
      assert (a + b)[1..] == a[1..] + b;
      CountOfAppend(a[1..], b, c);
    } else {
      assert a + b == b;
    }
  }

  lemma {:induction false} CountOfAbsent(s: string, c: char)
    requires c !in s
    ensures CountOf(s, c) == 0
    decreases |s|
  {
    if |s| > 0 {
      CountOfAbsent(s[1..], c);
    }
  }

  /**
   * When `replaceAll` may run: `from` is not empty, and each replacement
   * either shortens the text or removes an occurrence of the first character
   * of `from` without adding one. Otherwise the loop may never end: with
   * `from` = "a" and `to` = "aa" the text grows for ever.
   */
  predicate ReplaceTerminates(from: string, to: string) {
    |from| > 0 && (|to| < |from| || from[0] !in to)
  }

  /** `str.replace(pos, from.size(), to)`: the occurrence of `from` at i replaced by `to`. */
  function ReplaceFirst(s: string, from: string, to: string, i: nat): (r: string)
    requires OccursAt(s, from, i)
    ensures |r| == |s| - |from| + |to|
    ensures r[..i] == s[..i] && r[i..i + |to|] == to && r[i + |to|..] == s[i + |from|..]
  {
    s[..i] + to + s[i + |from|..]
  }

  /** The measure the `replaceAll` loop decreases. */
  function ReplaceMeasure(s: string, from: string, to: string): nat
    requires ReplaceTerminates(from, to)
  {
    if |to| < |from| then |s| else CountOf(s, from[0])
  }

  /** Replacing an occurrence decreases the measure. */
  lemma ReplaceShrinks(s: string, from: string, to: string, i: nat)
    requires ReplaceTerminates(from, to) && OccursAt(s, from, i)
    ensures ReplaceMeasure(ReplaceFirst(s, from, to, i), from, to) < ReplaceMeasure(s, from, to)
  {
    if |to| >= |from| {
      var c := from[0];
      var rest := s[i + |from|..];
      assert s == s[..i] + (s[i..i + |from|] + rest);
      CountOfAppend(s[..i], s[i..i + |from|] + rest, c);
      CountOfAppend(s[i..i + |from|], rest, c);
      assert s[i..i + |from|][0] == c;
      CountOfAppend(s[..i] + to, rest, c);
      CountOfAppend(s[..i], to, c);
      CountOfAbsent(to, c);
    }
  }

  /** The text after `replaceAll`: the leftmost occurrence replaced, again and again, until none is left. */
  function ReplaceAllSpec(s: string, from: string, to: string): string
    requires ReplaceTerminates(from, to)
    decreases ReplaceMeasure(s, from, to)
  {
    match Find(s, from)
    case None => s
    case Some(i) =>
      ReplaceShrinks(s, from, to, i);
      ReplaceAllSpec(ReplaceFirst(s, from, to, i), from, to)
  }

  /** After `replaceAll`, `from` occurs nowhere in the text. */
  lemma {:induction false} ReplaceAllLeavesNone(s: string, from: string, to: string)
    requires ReplaceTerminates(from, to)
    ensures forall j :: 0 <= j <= |ReplaceAllSpec(s, from, to)| ==> !OccursAt(ReplaceAllSpec(s, from, to), from, j)
    decreases ReplaceMeasure(s, from, to)
  {
    match Find(s, from)
    case None =>
    case Some(i) =>
      ReplaceShrinks(s, from, to, i);
      ReplaceAllLeavesNone(ReplaceFirst(s, from, to, i), from, to);
  }

  /** Text without an occurrence is left as it is. */
  lemma ReplaceAllUnchanged(s: string, from: string, to: string)
    requires ReplaceTerminates(from, to)
    requires forall j :: 0 <= j <= |s| ==> !OccursAt(s, from, j)
    ensures ReplaceAllSpec(s, from, to) == s
  {
  }

  /** `replaceAll`: rewrite in place until `from` no longer occurs. */
  method ReplaceAll(str: string, from: string, to: string) returns (s: string)
    requires ReplaceTerminates(from, to)
    ensures s == ReplaceAllSpec(str, from, to)
    ensures forall j :: 0 <= j <= |s| ==> !OccursAt(s, from, j)
  {
    s := str;
    while true
      invariant ReplaceAllSpec(s, from, to) == ReplaceAllSpec(str, from, to)
      decreases ReplaceMeasure(s, from, to)
    {
      var i := Find(s, from);
      if i.Some? {
        ReplaceShrinks(s, from, to, i.value);
        s := ReplaceFirst(s, from, to, i.value);
      } else {
        assert ReplaceAllSpec(s, from, to) == s;
        return;
      }
    }
  }
}
