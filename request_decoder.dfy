/** `decode_http_request` (services/api/data2req.py): from a raw client request
    to the pieces the HTTP replay templates need — method, path, the body as a
    Python value, the keyword it is passed under, and the headers to replay.

    `parse_qs(body.decode())` and `json.loads(body)` are library calls whose
    code is not part of this model: they are parameters (`BodyParsers`), and
    `None` from either stands for the exception it raises. */
module RequestDecoder {
  import opened Common
  import opened HttpRequest

  datatype Json =
    | JNull
    | JBool(b: bool)
    | JNumber(text: string)
    | JString(s: string)
    | JArray(items: seq<Json>)
    | JObject(members: seq<(string, Json)>)

  /** A form field after collapsing: one value, or the list of all of them. */
  datatype FormValue = Single(v: string) | Many(vs: seq<string>)

  /** The Python value bound to `data` in the generated script. */
  datatype BodyValue =
    | EmptyDict                        // `{}`
    | Form(fields: map<string, FormValue>)
    | JsonValue(json: Json)
    | Text(bytes: seq<byte>)           // the raw body, for text/plain
    | Placeholder(message: string)     // the multipart early return

  datatype BodyParsers = BodyParsers(
    parseQs: seq<byte> -> Option<map<string, seq<string>>>,
    jsonLoads: seq<byte> -> Option<Json>)

  /** The tuple the source returns, without the request object: its method
      and path are copied out. `paramName` and `headers` are `None` only on
      the multipart early return. */
  datatype Decoded = Decoded(
    command: string,
    path: string,
    data: BodyValue,
    paramName: Option<string>,
    headers: Option<map<string, string>>)

  /** Header names (compared lower-cased) that are never replayed. */
  const Framing: set<string> := {"content-length", "accept-encoding", "connection", "accept", "host"}

  function FilterHeaders(h: map<string, string>): (r: map<string, string>)
    ensures forall k :: k in r <==> k in h && Lower(k) !in Framing
    ensures forall k :: k in r ==> r[k] == h[k]
  {
    map k | k in h && Lower(k) !in Framing :: h[k]
  }

  /** Filtering twice is filtering once. */
  lemma FilterHeadersIdempotent(h: map<string, string>)
    ensures FilterHeaders(FilterHeaders(h)) == FilterHeaders(h)
  {
  }

  /** `request.headers.get("content-type", "")`: an exact, case-sensitive
      lookup in the dict, so a `Content-Type:` header is not seen. */
  function ContentType(h: map<string, string>): (ct: string)
    ensures "content-type" in h ==> ct == h["content-type"]
    ensures "content-type" !in h ==> ct == ""
  {
    if "content-type" in h then h["content-type"] else ""
  }

  /** `{k: v[0] if len(v) == 1 else v ...}` over the `parse_qs` result. */
  function Collapse(q: map<string, seq<string>>): (r: map<string, FormValue>)
    ensures r.Keys == q.Keys
    ensures forall k :: k in q ==> (r[k].Single? <==> |q[k]| == 1)
    ensures forall k :: k in q && |q[k]| == 1 ==> r[k] == Single(q[k][0])
    ensures forall k :: k in q && |q[k]| != 1 ==> r[k] == Many(q[k])
  {
    map k | k in q :: if |q[k]| == 1 then Single(q[k][0]) else Many(q[k])
  }

  function Values(v: FormValue): seq<string> {
    match v
    case Single(x) => [x]
    case Many(xs) => xs
  }

  /** Collapsing loses nothing: every field's list of values is recovered. */
  lemma CollapseRoundTrip(q: map<string, seq<string>>)
    ensures forall k :: k in q ==> Values(Collapse(q)[k]) == q[k]
  {
    forall k | k in q
      ensures Values(Collapse(q)[k]) == q[k]
    {
      if |q[k]| == 1 {
        assert q[k] == [q[k][0]];
      }
    }
  }

  /** The data value and its keyword, or the multipart early return. */
  datatype Tokenized = Tokenized(data: BodyValue, paramName: string) | NotImplemented(message: string)

  const MultipartMessage: string := "Forms with files are not yet implemented"

  /** The `if tokenize and body:` dispatch: the first content-type prefix that
      matches wins; an unknown type, no body, an empty body or
      `tokenize == false` leaves `{}` under `data`. */
  function TokenizeBody(tokenize: bool, contentType: string, body: Option<seq<byte>>, parsers: BodyParsers): (r: Result<Tokenized, Error>)
    ensures r.Err? ==> r.error == BodyDecodeError(contentType)
    ensures r.Ok? && r.value.Tokenized? ==> r.value.paramName in {"data", "json"} && !r.value.data.Placeholder?
    ensures r.Ok? && r.value.NotImplemented? ==> r.value.message == MultipartMessage
  {
    if tokenize && body.Some? && body.value != [] then
      var b := body.value;
      if StartsWith(contentType, "application/x-www-form-urlencoded") then
        match parsers.parseQs(b)
        case None => Err(BodyDecodeError(contentType))
        case Some(q) => Ok(Tokenized(Form(Collapse(q)), "data"))
      else if StartsWith(contentType, "application/json") then
        match parsers.jsonLoads(b)
        case None => Err(BodyDecodeError(contentType))
        case Some(j) => Ok(Tokenized(JsonValue(j), "json"))
      else if StartsWith(contentType, "text/plain") then
        Ok(Tokenized(Text(b), "data"))
      else if StartsWith(contentType, "multipart/form-data") then
        Ok(NotImplemented(MultipartMessage))
      else
        Ok(Tokenized(EmptyDict, "data"))
    else
      Ok(Tokenized(EmptyDict, "data"))
  }

  /** Without tokenizing, or without a body, nothing is parsed and the data is
      `{}` under `data`, whatever the content type. */
  lemma TokenizeOff(tokenize: bool, contentType: string, body: Option<seq<byte>>, parsers: BodyParsers)
    requires !tokenize || body.None? || body.value == []
    ensures TokenizeBody(tokenize, contentType, body, parsers) == Ok(Tokenized(EmptyDict, "data"))
  {
  }

  /** The dispatch fails only in the form and JSON branches, and then exactly
      when the corresponding library call fails. */
  lemma TokenizeErrors(tokenize: bool, contentType: string, body: Option<seq<byte>>, parsers: BodyParsers)
    ensures TokenizeBody(tokenize, contentType, body, parsers).Err? <==>
      tokenize && body.Some? && body.value != [] &&
      ((StartsWith(contentType, "application/x-www-form-urlencoded") && parsers.parseQs(body.value).None?) ||
       (!StartsWith(contentType, "application/x-www-form-urlencoded") &&
        StartsWith(contentType, "application/json") && parsers.jsonLoads(body.value).None?))
  {
  }

  /** No content type starts with two of the four recognised prefixes, so
      the order of the dispatch decides nothing. */
  lemma ContentTypesExclusive(ct: string)
    ensures StartsWith(ct, "multipart/form-data") ==>
      !StartsWith(ct, "application/x-www-form-urlencoded") && !StartsWith(ct, "application/json") &&
      !StartsWith(ct, "text/plain")
    ensures StartsWith(ct, "text/plain") ==>
      !StartsWith(ct, "application/x-www-form-urlencoded") && !StartsWith(ct, "application/json")
    ensures StartsWith(ct, "application/json") ==> !StartsWith(ct, "application/x-www-form-urlencoded")
  {
    var form, json, text, multi := "application/x-www-form-urlencoded", "application/json", "text/plain", "multipart/form-data";
    if StartsWith(ct, multi) && (StartsWith(ct, form) || StartsWith(ct, json) || StartsWith(ct, text)) {
      PrefixChar(ct, multi, 0);
      PrefixChar(ct, if StartsWith(ct, text) then text else if StartsWith(ct, json) then json else form, 0);
      assert false;
    }
    if StartsWith(ct, text) && (StartsWith(ct, form) || StartsWith(ct, json)) {
      PrefixChar(ct, text, 0);
      PrefixChar(ct, if StartsWith(ct, json) then json else form, 0);
      assert false;
    }
    if StartsWith(ct, json) && StartsWith(ct, form) {
      PrefixChar(ct, json, 12);
      PrefixChar(ct, form, 12);
      assert false;
    }
  }

  lemma PrefixChar(s: string, prefix: string, k: nat)
    requires StartsWith(s, prefix) && k < |prefix|
    ensures s[k] == prefix[k]
  {
    assert s[..|prefix|][k] == s[k];
  }

  /** With a non-empty body and tokenizing on, each recognised content type
      gets its own parser and keyword, whichever order the prefixes are
      tested in; any other type leaves `{}` under `data`. */
  lemma TokenizeDispatch(contentType: string, b: seq<byte>, parsers: BodyParsers)
    requires b != []
    ensures StartsWith(contentType, "application/x-www-form-urlencoded") && parsers.parseQs(b).Some? ==>
      TokenizeBody(true, contentType, Some(b), parsers) == Ok(Tokenized(Form(Collapse(parsers.parseQs(b).value)), "data"))
    ensures StartsWith(contentType, "application/json") && parsers.jsonLoads(b).Some? ==>
      TokenizeBody(true, contentType, Some(b), parsers) == Ok(Tokenized(JsonValue(parsers.jsonLoads(b).value), "json"))
    ensures StartsWith(contentType, "text/plain") ==>
      TokenizeBody(true, contentType, Some(b), parsers) == Ok(Tokenized(Text(b), "data"))
    ensures (!StartsWith(contentType, "application/x-www-form-urlencoded") && !StartsWith(contentType, "application/json") &&
             !StartsWith(contentType, "text/plain") && !StartsWith(contentType, "multipart/form-data")) ==>
      TokenizeBody(true, contentType, Some(b), parsers) == Ok(Tokenized(EmptyDict, "data"))
  {
    ContentTypesExclusive(contentType);
  }

  /** The multipart early return happens exactly for a non-empty body sent as
      `multipart/form-data` while tokenizing. */
  lemma TokenizeMultipart(tokenize: bool, contentType: string, body: Option<seq<byte>>, parsers: BodyParsers)
    ensures (TokenizeBody(tokenize, contentType, body, parsers) == Ok(NotImplemented(MultipartMessage))) <==>
      tokenize && body.Some? && body.value != [] && StartsWith(contentType, "multipart/form-data")
  {
    ContentTypesExclusive(contentType);
  }

  /** The raw request, `Decode` as a specification. */
  function Decode(raw: seq<byte>, tokenize: bool, parsers: BodyParsers): (r: Result<Decoded, Error>)
    ensures r.Ok? ==> (r.value.headers.Some? <==> r.value.paramName.Some?)
    ensures r.Ok? && r.value.headers.Some? ==>
      forall k :: k in r.value.headers.value ==> Lower(k) !in Framing
    ensures r.Ok? && r.value.paramName.Some? ==> r.value.paramName.value in {"data", "json"}
    ensures r.Ok? ==> (r.value.headers.None? <==> r.value.data.Placeholder?)
    ensures r.Ok? && r.value.data.Placeholder? ==> r.value.data.message == MultipartMessage
  {
    var line := ReadLine(raw);
    match ParseRequest(line, raw[|line|..])
    case Err(reason) => Err(MalformedRequest(400, reason))
    case Ok(p) =>
      var h := HeaderDict(p.fields);
      match TokenizeBody(tokenize, ContentType(h), SplitBody(raw), parsers)
      case Err(e) => Err(e)
      case Ok(Tokenized(data, name)) => Ok(Decoded(p.command, p.path, data, Some(name), Some(FilterHeaders(h))))
      case Ok(NotImplemented(message)) => Ok(Decoded(p.command, p.path, Placeholder(message), None, None))
  }

  /** A request whose request line does not parse is rejected with status
      400 and the parser's reason; one that parses keeps its method and path
      verbatim. */
  lemma DecodeRequestLine(raw: seq<byte>, tokenize: bool, parsers: BodyParsers)
    ensures ParseRequestLine(ReadLine(raw)).Err? ==>
      Decode(raw, tokenize, parsers) == Err(MalformedRequest(400, ParseRequestLine(ReadLine(raw)).error))
    ensures Decode(raw, tokenize, parsers).Ok? ==>
      ParseRequestLine(ReadLine(raw)).Ok? &&
      Decode(raw, tokenize, parsers).value.command == ParseRequestLine(ReadLine(raw)).value.command &&
      Decode(raw, tokenize, parsers).value.path == ParseRequestLine(ReadLine(raw)).value.path
  {
  }

  /** Without tokenizing, a request that parses decodes to `{}` under `data`
      with all its non-framing headers. */
  lemma DecodeWithoutTokenize(raw: seq<byte>, parsers: BodyParsers)
    requires ParseRequestLine(ReadLine(raw)).Ok?
    ensures var line := ParseRequestLine(ReadLine(raw)).value;
      Decode(raw, false, parsers) ==
        Ok(Decoded(line.command, line.path, EmptyDict, Some("data"),
          Some(FilterHeaders(HeaderDict(HeaderFields(raw[|ReadLine(raw)|..]))))))
  {
  }

  /** A request whose line parses keeps every non-framing header with its
      value, and its data and keyword are the dispatch on its exact
      `content-type` and its split body; a failing dispatch is the error. */
  lemma DecodeTokenized(raw: seq<byte>, tokenize: bool, parsers: BodyParsers)
    requires ParseRequestLine(ReadLine(raw)).Ok?
    ensures var line := ParseRequestLine(ReadLine(raw)).value;
      var h := HeaderDict(HeaderFields(raw[|ReadLine(raw)|..]));
      var t := TokenizeBody(tokenize, ContentType(h), SplitBody(raw), parsers);
      && (t.Err? ==> Decode(raw, tokenize, parsers) == Err(t.error))
      && (t.Ok? && t.value.Tokenized? ==>
            Decode(raw, tokenize, parsers) ==
              Ok(Decoded(line.command, line.path, t.value.data, Some(t.value.paramName), Some(FilterHeaders(h)))))
      && (t.Ok? && t.value.NotImplemented? ==>
            Decode(raw, tokenize, parsers) ==
              Ok(Decoded(line.command, line.path, Placeholder(MultipartMessage), None, None)))
  {
  }

  /** The content-type lookup is exact: a header spelled other than
      `content-type` (say `Content-Type`) is not seen, and the body is then
      never parsed. */
  lemma ContentTypeCaseSensitive(fields: seq<(string, string)>)
    requires forall i :: 0 <= i < |fields| ==> fields[i].0 != "content-type"
    ensures ContentType(HeaderDict(fields)) == ""
    ensures forall tokenize, body, parsers ::
      TokenizeBody(tokenize, ContentType(HeaderDict(fields)), body, parsers) == Ok(Tokenized(EmptyDict, "data"))
  {
  }

  /** `decode_http_request(raw_request, tokenize)`: builds the request object
      and reads the pieces off it. */
  method DecodeHttpRequest(rawRequest: seq<byte>, tokenize: bool, parsers: BodyParsers) returns (r: Result<Decoded, Error>)
    ensures r == Decode(rawRequest, tokenize, parsers)
  {
    var request := new HTTPRequest(rawRequest);
    if request.errorCode.Some? {
      return Err(MalformedRequest(request.errorCode.value, request.errorMessage.value));
    }
    var headers := FilterHeaders(request.headers);
    var contentType := ContentType(request.headers);
    var t := TokenizeBody(tokenize, contentType, request.body, parsers);
    if t.Err? {
      return Err(t.error);
    }
    match t.value
    case Tokenized(data, name) =>
      r := Ok(Decoded(request.command, request.path, data, Some(name), Some(headers)));
    case NotImplemented(message) =>
      r := Ok(Decoded(request.command, request.path, Placeholder(message), None, None));
  }
}
