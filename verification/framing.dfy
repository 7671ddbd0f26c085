/**
 * The length-prefixed wire format shared by client and server:
 *   <decimal length>\r\n<body>\r\n   where length = |body| + 2,
 * the two decoders (their limits and their handling of a bare CRLF differ),
 * and the receive buffer they consume.
 */
module Framing {
  import opened Results
  import opened Json
  import opened RpcErrors
  import opened Exceptions

  type byte = b: int | 0 <= b < 256

  /** The JSON library's parser, supplied from outside: a document or the text of its error. */
  type Parser = seq<byte> -> Result<Value, string>

  const CR: byte := 13
  const LF: byte := 10
  const CRLF: seq<byte> := [CR, LF]

  /** Server inbound limit: a declared length above this is refused. */
  const ServerMaxMessageLen: nat := 100 * 1024 * 1024
  /** Client inbound limit: a declared length at or above this is refused. */
  const ClientMaxMessageLen: nat := 65536

  predicate IsDigit(b: byte) {
    48 <= b <= 57
  }

  predicate AllDigits(d: seq<byte>) {
    forall i :: 0 <= i < |d| ==> IsDigit(d[i])
  }

  /** A JSON integer literal without sign: digits, no leading zero unless it is "0". */
  predicate CanonicalDecimal(d: seq<byte>) {
    |d| > 0 && AllDigits(d) && (d[0] == 48 ==> |d| == 1)
  }

  function DigitsValue(d: seq<byte>): nat
    requires AllDigits(d)
  {
    if |d| == 0 then 0 else DigitsValue(d[..|d| - 1]) * 10 + (d[|d| - 1] - 48)
  }

  /** `std::to_string` of a length: its canonical decimal text. */
  function Decimal(n: nat): (d: seq<byte>)
    ensures CanonicalDecimal(d) && DigitsValue(d) == n
  {
    if n < 10 then [48 + n]
    else
      var d := Decimal(n / 10) + [48 + n % 10];
      assert d[..|d| - 1] == Decimal(n / 10);
      d
  }

  /**
   * The header text parsed as a JSON number, when it is an int32: an
   * accepted header is the `to_string` text of a number in 0..INT32_MAX,
   * and it is read as that number (the converse is `DecimalHeader`).
   */
  function HeaderInt32(h: seq<byte>): (r: Option<int32>)
    ensures r.Some? ==> 0 <= r.value <= Int32Max && h == Decimal(r.value)
  {
    if CanonicalDecimal(h) && DigitsValue(h) <= Int32Max then
      CanonicalIsDecimal(h);
      Some(DigitsValue(h))
    else None
  }

  /** `findCRLF`: position of the first CR LF pair. */
  function FindCRLF(s: seq<byte>): (r: Option<nat>)
    ensures r.Some? ==> r.value + 1 < |s| && s[r.value] == CR && s[r.value + 1] == LF
    ensures r.Some? ==> forall j :: 0 <= j < r.value ==> !(s[j] == CR && s[j + 1] == LF)
    ensures r.None? ==> forall j :: 0 <= j < |s| - 1 ==> !(s[j] == CR && s[j + 1] == LF)
  {
    if |s| < 2 then None
    else if s[0] == CR && s[1] == LF then Some(0)
    else match FindCRLF(s[1..])
      case None => None
      case Some(i) => Some(i + 1)
  }

  /** `sendResponse` / `sendRequest`: frame a serialised body. */
  function Encode(body: seq<byte>): seq<byte> {
    Decimal(|body| + 2) + CRLF + body + CRLF
  }

  /** What one turn of a decoder loop does with the readable bytes. */
  datatype Step<E> =
    | Stop(consumed: nat)                   // leave the loop after dropping `consumed` bytes
    | Fail(consumed: nat, error: E)         // drop `consumed` bytes, then raise `error`
    | Frame(consumed: nat, json: seq<byte>) // drop header and body, hand `json` on, loop again

  /** One turn of the server's decoder loop. */
  function ServerStep(r: seq<byte>): (s: Step<RpcException>)
    ensures FindCRLF(r).None? ==> s == Stop(0)
    ensures FindCRLF(r) == Some(0) ==> s == Stop(2)
    ensures s.Stop? ==> s.consumed <= 2 && s.consumed <= |r|
    ensures s.Fail? ==> s.consumed == 0 && s.error.RequestException?
                        && s.error.err == InvalidRequest && s.error.id == Null
    ensures s.Frame? ==> |s.json| <= ServerMaxMessageLen && s.consumed <= |r|
                         && s.consumed > |s.json| + 2 && s.json == r[s.consumed - |s.json|..s.consumed]
  {
    match FindCRLF(r)
    case None => Stop(0)
    case Some(i) =>
      if i == 0 then Stop(2)
      else
        var headerLen := i + 2;
        match HeaderInt32(r[..i])
        case None => Fail(0, RequestError(InvalidRequest, "invalid message length"))
        case Some(n) =>
          if n <= 0 then Fail(0, RequestError(InvalidRequest, "invalid message length"))
          else if n > ServerMaxMessageLen then Fail(0, RequestError(InvalidRequest, "message is too long"))
          else if |r| < headerLen + n then Stop(0)
          else Frame(headerLen + n, r[headerLen..headerLen + n])
  }

  /** One turn of the client's decoder loop. */
  function ClientStep(r: seq<byte>): (s: Step<ResponseException>)
    ensures FindCRLF(r).None? ==> s == Stop(0)
    ensures FindCRLF(r) == Some(0) ==> s.Fail? && s.consumed == 2
    ensures s.Stop? ==> s.consumed == 0
    ensures s.Fail? ==> !s.error.hasId && s.consumed <= |r|
    ensures s.Frame? ==> |s.json| < ClientMaxMessageLen && s.consumed <= |r|
                         && s.consumed > |s.json| + 2 && s.json == r[s.consumed - |s.json|..s.consumed]
  {
    match FindCRLF(r)
    case None => Stop(0)
    case Some(i) =>
      var headerLen := i + 2;
      match HeaderInt32(r[..i])
      case None => Fail(headerLen, ResponseError("invalid message length in header"))
      case Some(n) =>
        if n <= 0 then Fail(headerLen, ResponseError("invalid message length in header"))
        else if n >= ClientMaxMessageLen then Fail(0, ResponseError("message is too long"))
        else if |r| < headerLen + n then Stop(0)
        else Frame(headerLen + n, r[headerLen..headerLen + n])
  }

  /** A canonical decimal text is the text `Decimal` gives for its value. */
  lemma {:induction false} CanonicalIsDecimal(h: seq<byte>)
    requires CanonicalDecimal(h)
    ensures h == Decimal(DigitsValue(h))
  {
    if |h| > 1 {
      var p := h[..|h| - 1];
      assert CanonicalDecimal(p);
      CanonicalIsDecimal(p);
      var vp := DigitsValue(p);
      assert vp != 0;
      var v := DigitsValue(h);
      assert v == vp * 10 + (h[|h| - 1] - 48);
      assert v / 10 == vp && v % 10 == h[|h| - 1] - 48;
      assert h == p + [h[|h| - 1]];
    }
  }

  /** In a frame the first CR LF is the one right after the length. */
  lemma FirstCRLFAfterDecimal(n: nat, rest: seq<byte>)
    ensures FindCRLF(Decimal(n) + CRLF + rest) == Some(|Decimal(n)|)
  {
    var d := Decimal(n);
    var s := d + CRLF + rest;
    assert s[|d|] == CR && s[|d| + 1] == LF;
    assert forall j :: 0 <= j < |d| ==> s[j] == d[j];
  }

  /** What both decoders read from a buffer starting with an encoded frame: the header, its value, and the body after CR LF. */
  lemma EncodedFrameParts(body: seq<byte>, rest: seq<byte>)
    requires |body| + 2 <= ServerMaxMessageLen
    ensures var d := Decimal(|body| + 2);
            var r := Encode(body) + rest;
            && FindCRLF(r) == Some(|d|)
            && HeaderInt32(r[..|d|]) == Some(|body| + 2)
            && |r| >= |d| + 2 + |body| + 2
            && r[|d| + 2..|d| + 2 + |body| + 2] == body + CRLF
            && |Encode(body)| == |d| + 2 + |body| + 2
  {
    var n := |body| + 2;
    var d := Decimal(n);
    var r := Encode(body) + rest;
    assert r == d + CRLF + (body + CRLF + rest);
    FirstCRLFAfterDecimal(n, body + CRLF + rest);
    assert r[..|d|] == d;
    assert HeaderInt32(d) == Some(n);
    assert r[|d| + 2..|d| + 2 + n] == body + CRLF;
  }

  /** Server side round trip: a buffer starting with an encoded frame yields body ++ CRLF and drops exactly that frame. */
  lemma ServerDecodesEncoded(body: seq<byte>, rest: seq<byte>)
    requires |body| + 2 <= ServerMaxMessageLen
    ensures ServerStep(Encode(body) + rest) == Frame(|Encode(body)|, body + CRLF)
  {
    EncodedFrameParts(body, rest);
  }

  /** Client side round trip, within the client's smaller limit. */
  lemma ClientDecodesEncoded(body: seq<byte>, rest: seq<byte>)
    requires |body| + 2 < ClientMaxMessageLen
    ensures ClientStep(Encode(body) + rest) == Frame(|Encode(body)|, body + CRLF)
  {
    EncodedFrameParts(body, rest);
  }

  /** Conversely, every frame the server decoder takes is the canonical header, CR LF, and the bytes it yields. */
  lemma ServerFrameIsEncoded(r: seq<byte>)
    requires ServerStep(r).Frame?
    ensures var s := ServerStep(r); r[..s.consumed] == Decimal(|s.json|) + CRLF + s.json
  {
    var i := FindCRLF(r).value;
    var n := HeaderInt32(r[..i]).value;
    assert r[..i] == Decimal(n) && r[i..i + 2] == CRLF;
    assert r[..i + 2 + n] == r[..i] + r[i..i + 2] + r[i + 2..i + 2 + n];
  }

  /** The same for the client decoder. */
  lemma ClientFrameIsEncoded(r: seq<byte>)
    requires ClientStep(r).Frame?
    ensures var s := ClientStep(r); r[..s.consumed] == Decimal(|s.json|) + CRLF + s.json
  {
    var i := FindCRLF(r).value;
    var n := HeaderInt32(r[..i]).value;
    assert r[..i] == Decimal(n) && r[i..i + 2] == CRLF;
    assert r[..i + 2 + n] == r[..i] + r[i..i + 2] + r[i + 2..i + 2 + n];
  }

  /** A server turn whose header (the bytes before the first CR LF, at i) is "0" raises "invalid message length" and drops nothing. */
  lemma ServerStepZeroLength(r: seq<byte>, i: nat)
    requires FindCRLF(r) == Some(i) && i > 0 && r[..i] == Decimal(0)
    ensures ServerStep(r) == Fail(0, RequestError(InvalidRequest, "invalid message length"))
  {
    DecimalHeader(r[..i], 0);
  }

  /**
   * A server turn whose header is the `to_string` text of a length n within
   * the limit takes the frame once all n bytes after the CR LF are there,
   * and otherwise leaves the loop without dropping anything.
   */
  lemma ServerStepWithinLimit(r: seq<byte>, i: nat, n: nat)
    requires FindCRLF(r) == Some(i) && i > 0
    requires 0 < n <= ServerMaxMessageLen && r[..i] == Decimal(n)
    ensures |r| < i + 2 + n ==> ServerStep(r) == Stop(0)
    ensures |r| >= i + 2 + n ==> ServerStep(r) == Frame(i + 2 + n, r[i + 2..i + 2 + n])
  {
    DecimalHeader(r[..i], n);
  }

  /** A server turn whose header is the `to_string` text of an int32 above the limit raises "message is too long" and drops nothing. */
  lemma ServerStepTooLong(r: seq<byte>, i: nat, n: nat)
    requires FindCRLF(r) == Some(i) && i > 0
    requires ServerMaxMessageLen < n <= Int32Max && r[..i] == Decimal(n)
    ensures ServerStep(r) == Fail(0, RequestError(InvalidRequest, "message is too long"))
  {
    DecimalHeader(r[..i], n);
  }

  /** A server turn whose header is not the text of any int32 raises "invalid message length" and drops nothing. */
  lemma ServerStepBadHeader(r: seq<byte>)
    requires FindCRLF(r).Some? && FindCRLF(r).value > 0
    requires forall n: nat :: n <= Int32Max ==> r[..FindCRLF(r).value] != Decimal(n)
    ensures ServerStep(r) == Fail(0, RequestError(InvalidRequest, "invalid message length"))
  {
  }

  /** A client turn whose header (the bytes before the first CR LF, at i) is "0" drops the header and raises "invalid message length in header". */
  lemma ClientStepZeroLength(r: seq<byte>, i: nat)
    requires FindCRLF(r) == Some(i) && r[..i] == Decimal(0)
    ensures ClientStep(r) == Fail(i + 2, ResponseError("invalid message length in header"))
  {
    DecimalHeader(r[..i], 0);
  }

  /**
   * A client turn whose header is the `to_string` text of a length n below
   * the limit takes the frame once all n bytes after the CR LF are there,
   * and otherwise leaves the loop without dropping anything.
   */
  lemma ClientStepWithinLimit(r: seq<byte>, i: nat, n: nat)
    requires FindCRLF(r) == Some(i)
    requires 0 < n < ClientMaxMessageLen && r[..i] == Decimal(n)
    ensures |r| < i + 2 + n ==> ClientStep(r) == Stop(0)
    ensures |r| >= i + 2 + n ==> ClientStep(r) == Frame(i + 2 + n, r[i + 2..i + 2 + n])
  {
    DecimalHeader(r[..i], n);
  }

  /** A client turn whose header is the `to_string` text of an int32 at or above the limit raises "message is too long" and drops nothing. */
  lemma ClientStepTooLong(r: seq<byte>, i: nat, n: nat)
    requires FindCRLF(r) == Some(i)
    requires ClientMaxMessageLen <= n <= Int32Max && r[..i] == Decimal(n)
    ensures ClientStep(r) == Fail(0, ResponseError("message is too long"))
  {
    DecimalHeader(r[..i], n);
  }

  /** A client turn whose header is not the text of any int32 (an empty header included) drops the header and raises. */
  lemma ClientStepBadHeader(r: seq<byte>)
    requires FindCRLF(r).Some?
    requires forall n: nat :: n <= Int32Max ==> r[..FindCRLF(r).value] != Decimal(n)
    ensures var i := FindCRLF(r).value;
            ClientStep(r) == Fail(i + 2, ResponseError("invalid message length in header"))
  {
  }

  /** Conversely, the `to_string` text of any n in 0..INT32_MAX is accepted as a header and read as n. */
  lemma DecimalHeader(h: seq<byte>, n: nat)
    requires n <= Int32Max && h == Decimal(n)
    ensures HeaderInt32(h) == Some(n)
  {
  }

  /** The receive buffer: bytes with a read offset; retrieving advances the offset. */
  class Buffer {
    var storage: seq<byte>
    var readIndex: nat

    ghost predicate Valid()
      reads this
    {
      readIndex <= |storage|
    }

    function Readable(): seq<byte>
      reads this
      requires Valid()
    {
      storage[readIndex..]
    }

    constructor (initial: seq<byte>)
      ensures Valid() && Readable() == initial
    {
      storage := initial;
      readIndex := 0;
    }

    /** New bytes from the transport. */
    method Append(data: seq<byte>)
      requires Valid()
      modifies this
      ensures Valid() && Readable() == old(Readable()) + data
    {
      storage := storage + data;
    }

    method Retrieve(n: nat)
      requires Valid() && n <= |Readable()|
      modifies this
      ensures Valid() && Readable() == old(Readable())[n..]
    {
      readIndex := readIndex + n;
    }

    method RetrieveAsString(n: nat) returns (s: seq<byte>)
      requires Valid() && n <= |Readable()|
      modifies this
      ensures s == old(Readable())[..n]
      ensures Valid() && Readable() == old(Readable())[n..]
    {
      s := storage[readIndex..readIndex + n];
      readIndex := readIndex + n;
    }
  }
}
