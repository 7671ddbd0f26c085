/**
 * An abstract JSON document, as the JSON library exposes it to the engine:
 * a typed value whose objects are ORDERED lists of members.  Member lookup
 * returns the first member with the key; the size of an object counts all
 * members (duplicates included).  Parsing and serialisation belong to the
 * library and are not modelled here: they are passed in as functions.
 */
module Json {
  import opened Results

  const Int32Max: int := 0x7fff_ffff
  type int32 = x: int | -0x8000_0000 <= x < 0x8000_0000
  type int64 = x: int | -0x8000_0000_0000_0000 <= x < 0x8000_0000_0000_0000

  datatype ValueType =
    | TypeNull | TypeBool | TypeInt32 | TypeInt64 | TypeDouble
    | TypeString | TypeArray | TypeObject

  datatype Value =
    | Null
    | Bool(b: bool)
    | Int32(i: int32)
    | Int64(l: int64)
    | Double(bits: nat)   // a floating-point number, kept opaque
    | String(s: string)
    | Array(elems: seq<Value>)
    | Object(members: seq<Member>)

  datatype Member = Member(key: string, value: Value)

  function TypeOf(v: Value): ValueType {
    match v
    case Null => TypeNull
    case Bool(_) => TypeBool
    case Int32(_) => TypeInt32
    case Int64(_) => TypeInt64
    case Double(_) => TypeDouble
    case String(_) => TypeString
    case Array(_) => TypeArray
    case Object(_) => TypeObject
  }

  /** Index of the first member whose key is `key`. */
  function KeyIndex(ms: seq<Member>, key: string): (r: Option<nat>)
    ensures r.Some? ==> r.value < |ms| && ms[r.value].key == key
    ensures r.Some? ==> forall j :: 0 <= j < r.value ==> ms[j].key != key
    ensures r.None? <==> forall j :: 0 <= j < |ms| ==> ms[j].key != key
  {
    if |ms| == 0 then None
    else if ms[0].key == key then Some(0)
    else match KeyIndex(ms[1..], key)
      case None => None
      case Some(i) => Some(i + 1)
  }

  /** `findMember`: the value of the first member named `key`; a non-object has no members. */
  function FindMember(v: Value, key: string): (r: Option<Value>)
    ensures r.Some? <==> v.Object? && KeyIndex(v.members, key).Some?
    ensures r.Some? ==> r.value == v.members[KeyIndex(v.members, key).value].value
  {
    if v.Object? then
      match KeyIndex(v.members, key)
      case None => None
      case Some(i) => Some(v.members[i].value)
    else None
  }

  predicate HasMember(v: Value, key: string) {
    FindMember(v, key).Some?
  }

  /** `getSize`: element count of an array, member count of an object, 0 otherwise. */
  function Size(v: Value): nat {
    match v
    case Array(es) => |es|
    case Object(ms) => |ms|
    case _ => 0
  }

  /** `addMember`: appends a member at the end of an object. */
  function AddMember(v: Value, key: string, value: Value): (r: Value)
    requires v.Object?
    ensures r.Object? && Size(r) == Size(v) + 1
    ensures r.members[..Size(v)] == v.members && r.members[Size(v)] == Member(key, value)
  {
    Object(v.members + [Member(key, value)])
  }

  /** The string held by member `key`, or "" when there is no such string member. */
  function StringMember(v: Value, key: string): string {
    match FindMember(v, key)
    case Some(String(s)) => s
    case _ => ""
  }

  /** `operator[]` on an object key; a missing key reads as null. */
  function MemberOrNull(v: Value, key: string): Value {
    FindMember(v, key).GetOr(Null)
  }
}
