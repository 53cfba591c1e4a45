/** Shared vocabulary of the replay-code generators: bytes, the captured flow
    record, the error kinds of the HTTP path, and the few string operations
    (Python's `startswith`, `lower` and ISO-8859-1 decoding) both paths use. */
module Common {

  /** One octet, as Python's `bytes` elements. */
  type byte = b: int | 0 <= b < 0x100

  datatype Option<T> = None | Some(value: T)

  datatype Result<T, E> = Ok(value: T) | Err(error: E)

  /** One direction of a captured exchange. `data` is the payload the HTTP path
      reads (`message['data'].encode()`), `b64` the payload the raw-socket path
      reads, already base64-decoded. Only `from == "c"` marks a client message. */
  datatype Message = Message(from: string, data: seq<byte>, b64: seq<byte>)

  datatype Flow = Flow(dstPort: int, messages: seq<Message>)

  predicate IsClient(m: Message) {
    m.from == "c"
  }

  /** The failures of the HTTP path, each named after the condition that
      fails. */
  datatype Error =
    | MalformedRequest(code: int, message: string)  // request line or headers did not parse
    | BodyDecodeError(contentType: string)            // `parse_qs(body.decode())` or `json.loads` raised
    | InvalidPath                                     // path does not start with '/'
    | InvalidMethod(name: string)                     // lower-cased method not in the fixed set
    | HeadersMissing                                  // `dict(None)` on the multipart placeholder

  /** Python's `s.startswith(prefix)`. */
  predicate StartsWith(s: string, prefix: string) {
    |prefix| <= |s| && s[..|prefix|] == prefix
  }

  /** Python's `str.lower()` on one character of the ISO-8859-1 range: ASCII
      A-Z and the Latin-1 capitals U+00C0..U+00DE except U+00D7 move up by 0x20.
      Characters above U+00FF are left unchanged. */
  function LowerChar(c: char): (r: char)
    ensures (r == c) <==> !(('A' <= c <= 'Z') || ('À' <= c <= 'Þ' && c != '×'))
  {
    if ('A' <= c <= 'Z') || ('À' <= c <= 'Þ' && c != '×')
    then (c as int + 0x20) as char
    else c
  }

  function Lower(s: string): (r: string)
    ensures |r| == |s|
    ensures forall i :: 0 <= i < |s| ==> r[i] == LowerChar(s[i])
  {
    seq(|s|, i requires 0 <= i < |s| => LowerChar(s[i]))
  }

  lemma LowerIdempotent(s: string)
    ensures Lower(Lower(s)) == Lower(s)
  {
  }

  /** Decoding bytes as ISO-8859-1: every byte is the character with that code. */
  function Latin1(bs: seq<byte>): (r: string)
    ensures |r| == |bs|
    ensures forall i :: 0 <= i < |bs| ==> r[i] as int == bs[i]
  {
    seq(|bs|, i requires 0 <= i < |bs| => bs[i] as char)
  }
}
