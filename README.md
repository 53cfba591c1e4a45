# Replay-script generators of tulip, in Dafny

tulip is a traffic viewer for attack-defence CTFs. From a captured TCP flow
(its destination port and its messages, each marked as sent by the client
`"c"` or by the server) it can generate a script that replays the traffic.
This project models the two generators and proves what their output means.

- **Raw-socket replay** (`services/api/flow2pwn.py`). This generates a
  pwntools script:
  - a fixed header connects to the flow's port;
  - each client message becomes `proc.write(b"...")`;
  - each server message becomes `proc.recvuntil(b"...")` on its last ten
    bytes.

  Modules `Escaper` and `RawScript` model it:
  - `escape`/`convert` turn bytes into the body of a Python bytes literal;
  - `LiteralBytes` is the partner decoder (how Python reads such a body);
  - the script is defined as text. `Flow2Pwn` builds it with the source's
    `script +=` loop and is proved equal to it.

- **HTTP replay** (`services/api/data2req.py`). This generates a
  `requests` script. Each client message is parsed as an HTTP request:
  - the request line, the headers and the body after the first blank line;
  - the body is decoded according to its content type;
  - the method is validated and the path checked, and then one call is
    emitted.

  Modules `HttpRequest`, `RequestDecoder`, `RequestMethod` and
  `HttpRenderer` model it:
  - `HTTPRequest` is a class whose constructor assigns its fields in the
    source's order. `SendError` records a failure, as the source's override
    does;
  - decoding and rendering are specification functions;
  - the two `convert_*` entry points are methods proved equal to those
    functions;
  - the generated script is modelled by its content (`HttpScript`: host
    source, session use, port and the calls in order), not its text.

`Common` holds the shared vocabulary:
- bytes, `Option`/`Result`, the flow record, and the error kinds;
- Python's `startswith`;
- `lower` on the ISO-8859-1 range;
- ISO-8859-1 decoding.

## Behaviour of the code as written

The model follows the code, including where the code is surprising:

- **The recvuntil pattern.** The server pattern is
  `convert(last10).replace("\\n", "\\\\n")`. `convert` never writes a bare
  newline, so the replace only fires on an escaped backslash byte followed
  by a byte `n`. It makes the literal denote backslash plus line feed
  instead of backslash plus `n`. `RecvPatternBytes` states exactly what the
  pattern waits for. `RecvPatternExact` proves that it is the server's last
  bytes if and only if they contain no backslash-`n` pair.
- **Multipart requests.** A multipart body makes `decode_http_request`
  return a placeholder string, with `None` for the keyword and the headers.
  Both renderers then fail on `dict(None)`. `MultipartNeverRenders` proves
  that such a request renders neither alone nor in a flow.
- **The content-type lookup.** It is an exact lookup of `"content-type"` in
  `dict(headers)`, so it is case-sensitive: a request sending
  `Content-Type:` is never tokenized.
- **`dict(headers)`.** It keeps every spelling of a header name. Each
  spelling maps to the value of the first field whose name matches it,
  ignoring case.
- **Check order.** The single-request renderer checks the path before the
  method; the flow renderer checks the method before the path.
- **Errors in a flow.** A flow stops at the first failing client message
  and reports that message's own error, not wrapped with its position.

## Model

| member | source | states |
|---|---|---|
| Common.LowerChar | services/api/data2req.py:126 | a character changes under `lower()` exactly when it is an ASCII or ISO-8859-1 capital |
| Common.Lower | services/api/data2req.py:126 | `lower()` keeps the length and lowers each character independently |
| Escaper.Escape | services/api/flow2pwn.py:7-11 | the escape of a byte is printable text of 1, 2 or 4 characters |
| Escaper.EscapeCases | services/api/flow2pwn.py:7-11 | printable bytes stand for themselves, except `\` and `"`, which are backslash-escaped; every other byte is `\x` with two lower-case hex digits whose value is the byte |
| Escaper.Convert | services/api/flow2pwn.py:13-14 | `convert` yields printable text, between one and four characters per byte |
| Escaper.ConvertAppend | services/api/flow2pwn.py:13-14 | `convert` distributes over concatenation (it is the join of per-byte escapes) |
| Escaper.ConvertRoundTrip | services/api/flow2pwn.py:7-14 | the bytes literal `b"<convert(s)>"` denotes exactly `s` |
| Escaper.ConvertSafeInQuotes | services/api/flow2pwn.py:7-14 | `convert(s)` never closes the surrounding `b"..."` early and never ends in a lone backslash |
| RawScript.Last10 | services/api/flow2pwn.py:31 | `data[-10:]` is the suffix of length min(10, len) |
| RawScript.Flow2Pwn | services/api/flow2pwn.py:16-35 | the loop builds exactly the script text: the header followed by one line per message, each ending in a newline |
| RawScript.SplitJoinLines | services/api/flow2pwn.py:29-33 | lines without line breaks, each terminated by `\n`, are recovered by splitting at line breaks |
| RawScript.ScriptLines | services/api/flow2pwn.py:16-35 | the script's lines are the five header lines followed by exactly one line per message, in capture order |
| RawScript.ScriptStartsWithHeader | services/api/flow2pwn.py:19-24 | the script starts with the header, and its fifth line is `proc = remote(host, <digits>)` where the digits read back as the flow's destination port |
| RawScript.DigitsRoundTrip | services/api/flow2pwn.py:23 | `str` of a non-negative number reads back as that number and has no leading zero unless the number is zero |
| RawScript.DecimalRoundTrip | services/api/flow2pwn.py:23 | `str` of any integer reads back as that integer, starts with '-' exactly for a negative one, and has no leading zero for a positive one |
| RawScript.ClientLine | services/api/flow2pwn.py:28-29 | a client message's line is `proc.write(b"…")`, and its literal is well formed and denotes the whole payload |
| RawScript.ServerLine | services/api/flow2pwn.py:30-33 | a server message's line is `proc.recvuntil(b"…")`, and its literal is well formed and denotes the last ten bytes with each `n` after a backslash read as a line feed |
| RawScript.ReplaceBackslashNLength | services/api/flow2pwn.py:32 | the `replace` only inserts: the text grows by at most half, and text without a backslash is unchanged |
| RawScript.ReplaceConvert | services/api/flow2pwn.py:32 | the `replace` on the escaped text rewrites exactly the `n` bytes that follow a backslash byte into `\n` |
| RawScript.RecvPatternBytes | services/api/flow2pwn.py:31-33 | the recvuntil literal is well formed and denotes the last ten bytes with each backslash-`n` pair turned into backslash plus line feed |
| RawScript.NewlineAfterBackslashUnchanged | services/api/flow2pwn.py:32 | that rewriting leaves bytes unchanged exactly when they contain no backslash byte followed by `n` |
| RawScript.RecvPatternExact | services/api/flow2pwn.py:31-33 | recvuntil waits for the server's real last bytes if and only if they hold no backslash-`n` pair |
| RawScript.RecvPatternBackslashN | services/api/flow2pwn.py:31-33 | for every server payload ending in backslash and `n`, the pattern denotes bytes that end in backslash and line feed, so it is not the payload's last bytes |
| RawScript.RecvPatternBackslashNExample | services/api/flow2pwn.py:31-33 | for the payload backslash, `n` the pattern text is `\\\n` |
| RawScript.RecvPatternPong | services/api/flow2pwn.py:31-33 | for the payload `PONG\n` the pattern is `PONG\x0a` |
| RequestMethod.ValidateRequestMethod | services/api/data2req.py:125-129 | accepts exactly the tokens whose lower-case form is one of the seven methods and returns that form; otherwise `InvalidMethod` carrying the lower-cased token |
| RequestMethod.ValidateIdempotent | services/api/data2req.py:125-129 | an accepted method is one of the seven and is accepted again unchanged |
| RequestMethod.ValidateIgnoresCase | services/api/data2req.py:126 | tokens that are equal up to case are validated alike |
| RequestMethod.ValidateExamples | services/api/data2req.py:125-129 | `GET` and `Get` give `get`; `fetch` is rejected as `fetch` |
| HttpRequest.LineEnd | services/api/data2req.py:14 | `readline()` stops just after the first line feed, or at the end of the buffer |
| HttpRequest.Words | services/api/data2req.py:16 | whitespace splitting yields non-empty words without whitespace |
| HttpRequest.ParseRequestLine | services/api/data2req.py:16 | the request line parses exactly when it splits into three words whose third starts with `HTTP/`, or into two words whose first is `GET`; it then yields its first two words as command and path |
| HttpRequest.WordLengthIs | services/api/data2req.py:16 | the leading word's length is the length of the leading non-whitespace run |
| HttpRequest.WordsSpaced | services/api/data2req.py:16 | a word followed by one space splits off as the first word |
| HttpRequest.WordsSingle | services/api/data2req.py:16 | a single word splits to itself |
| HttpRequest.WordsThree | services/api/data2req.py:16 | three words joined by single spaces split back into exactly those words |
| HttpRequest.StripLineEndStep | services/api/data2req.py:16 | stripping the line end drops a trailing CR or LF |
| HttpRequest.StripCrLf | services/api/data2req.py:16 | a CRLF line end is stripped and nothing before it |
| HttpRequest.ParseThreeWords | services/api/data2req.py:16 | every request line `METHOD SP PATH SP HTTP/… CRLF` parses to that method and path |
| HttpRequest.PingLatin1 | services/api/data2req.py:16 | the bytes of `GET /ping HTTP/1.1\r\n` read as ISO-8859-1 are those three words, spaces and CRLF |
| HttpRequest.ParsePingRequestLine | services/api/data2req.py:16 | the request line `GET /ping HTTP/1.1\r\n` parses to method `GET` and path `/ping` |
| HttpRequest.FirstValue | services/api/data2req.py:18 | the value looked up for a name is that of the first field with that name, ignoring case |
| HttpRequest.HeaderDict | services/api/data2req.py:18 | `dict(headers)` has exactly the field names as spelled as its keys |
| HttpRequest.HeaderDictValue | services/api/data2req.py:18 | each key of `dict(headers)` holds the value of the first field whose name matches it, ignoring case |
| HttpRequest.FindSeparator | services/api/data2req.py:19 | finds the first `\r\n\r\n`, or reports that there is none |
| HttpRequest.RStrip | services/api/data2req.py:19 | `rstrip()` keeps a prefix, removes only whitespace, and leaves no trailing whitespace |
| HttpRequest.SplitBody | services/api/data2req.py:19 | the body is absent exactly when the buffer has no `\r\n\r\n`; otherwise it is the stripped text after the first one |
| HttpRequest.HTTPRequest.constructor | services/api/data2req.py:12-19 | the request keeps its buffer, its first line and its body split. When parsing succeeds it holds the command, the path and `dict(headers)`; when parsing fails it records status 400 with the reason |
| HttpRequest.HTTPRequest.SendError | services/api/data2req.py:21-23 | records the code and the message and changes nothing else |
| RequestDecoder.FilterHeaders | services/api/data2req.py:28 | keeps exactly the headers whose lower-cased name is not one of the five framing names, with their values |
| RequestDecoder.FilterHeadersIdempotent | services/api/data2req.py:28 | filtering twice is filtering once |
| RequestDecoder.ContentType | services/api/data2req.py:29 | the content type is the value under the exact key `content-type`, or empty |
| RequestDecoder.ContentTypeCaseSensitive | services/api/data2req.py:29 | with no field named exactly `content-type`, the content type is empty and the body always decodes to `{}` under `data` |
| RequestDecoder.Collapse | services/api/data2req.py:35 | collapsing the `parse_qs` result keeps exactly its keys; a field with exactly one value becomes that value, any other keeps its list |
| RequestDecoder.CollapseRoundTrip | services/api/data2req.py:35 | collapsing loses nothing: each field's list of values is recovered |
| RequestDecoder.TokenizeBody | services/api/data2req.py:33-43 | the only error is a body decode error for this content type; the keyword is `data` or `json`; the early return carries the fixed message |
| RequestDecoder.TokenizeDispatch | services/api/data2req.py:33-40 | with tokenizing on and a non-empty body: a form body gives the collapsed `parse_qs` result under `data`, a JSON body the `json.loads` value under `json`, a `text/plain` body the raw bytes under `data`, and an unrecognised type `{}` under `data`, whatever the order of the prefix tests |
| RequestDecoder.TokenizeOff | services/api/data2req.py:33 | without tokenizing, or with no body or an empty one, the data is `{}` under `data` |
| RequestDecoder.TokenizeErrors | services/api/data2req.py:33-38 | decoding fails exactly when a form or JSON body's parser fails |
| RequestDecoder.ContentTypesExclusive | services/api/data2req.py:34-41 | no content type starts with two of the four recognised prefixes |
| RequestDecoder.TokenizeMultipart | services/api/data2req.py:41-43 | the early return happens exactly for a non-empty multipart body while tokenizing |
| RequestDecoder.Decode | services/api/data2req.py:25-45 | keyword and headers are absent together, and exactly for the placeholder; replayed headers never include a framing name; the keyword is `data` or `json` |
| RequestDecoder.DecodeRequestLine | services/api/data2req.py:26 | an unparsable request line gives `MalformedRequest(400, reason)`; a decoded request keeps its command and path verbatim |
| RequestDecoder.DecodeTokenized | services/api/data2req.py:25-45 | for a parsable request, a failing body decode is the decode's error; otherwise the data and keyword are the dispatch on the exact `content-type` and the split body, with all non-framing headers and their values, or the placeholder without keyword and headers |
| RequestDecoder.DecodeWithoutTokenize | services/api/data2req.py:25-45 | without tokenizing, a parsable request decodes to `{}` under `data` with all its non-framing headers |
| RequestDecoder.DecodeHttpRequest | services/api/data2req.py:25-45 | decoding through the request object gives exactly `Decode` |
| HttpRenderer.SingleCall | services/api/data2req.py:47-77 | a call is built exactly when the path starts with `/`, the lowered method is one of the seven and the headers are present; it carries the lowered method, the path, the keyword, the data and the headers of the request; otherwise it reports `InvalidPath` for a path without `/`, else `InvalidMethod` with the lowered method, else `HeadersMissing` |
| HttpRenderer.FlowCall | services/api/data2req.py:106-117 | the same call, exactly when the same conditions hold; the flow loop checks the method first: `InvalidMethod` with the lowered method, else `InvalidPath`, else `HeadersMissing` |
| HttpRenderer.CheckOrder | services/api/data2req.py:47-111 | both renderers accept the same requests and build the same call; with both a bad path and a bad method, the single renderer reports the path and the flow renderer the method |
| HttpRenderer.PlaceholderNeverRenders | services/api/data2req.py:41-43 | the multipart placeholder never renders; with a good path and method, the failure is the missing headers |
| HttpRenderer.RenderSingle | services/api/data2req.py:47-77 | a single request renders exactly when it decodes, its path starts with `/`, its lowered method is one of the seven and it is not the placeholder; the script then holds one call with the request's lowered method, path, keyword, data and headers, reads the host from the environment only, and uses the given port and session setting; a decode error, or the error the request's call reports, is passed on unchanged |
| HttpRenderer.ConvertSingleHttpRequests | services/api/data2req.py:47-77 | the entry point computes exactly `RenderSingle` |
| HttpRenderer.ClientCallOf | services/api/data2req.py:104-117 | a client message's call is the decode error, or the flow loop's checks applied to the decoded request |
| HttpRenderer.RenderCalls | services/api/data2req.py:103-117 | a successful rendering has exactly one call per client message |
| HttpRenderer.RenderFlow | services/api/data2req.py:79-123 | a rendered flow falls back to the first script argument for the host, and uses the flow's port and the given session setting |
| HttpRenderer.ErrorPersists | services/api/data2req.py:104-109 | once a prefix of the messages fails, the flow fails with that error |
| HttpRenderer.ConvertFlowToHttpRequests | services/api/data2req.py:79-123 | the loop computes exactly `RenderFlow` |
| HttpRenderer.Clients | services/api/data2req.py:104-105 | at most as many messages are kept, all from the client |
| HttpRenderer.ClientsAppend | services/api/data2req.py:104-105 | keeping the client messages distributes over concatenation, so they are the subsequence of client messages in capture order |
| HttpRenderer.ClientsSingle | services/api/data2req.py:104-105 | one message is kept exactly when the client sent it |
| HttpRenderer.ClientsMembers | services/api/data2req.py:104-105 | every client message is kept and nothing else |
| HttpRenderer.RenderCallsClients | services/api/data2req.py:104-105 | server messages do not affect the rendering |
| HttpRenderer.RenderCallsOk | services/api/data2req.py:104-117 | rendering succeeds exactly when every client message yields a call |
| HttpRenderer.RenderCallsInOrder | services/api/data2req.py:104-117 | on client messages alone, the calls are those of the messages, one each, in order |
| HttpRenderer.RenderCallsFirstError | services/api/data2req.py:104-109 | a failure is the error of the first failing client message |
| HttpRenderer.RenderFlowCalls | services/api/data2req.py:103-123 | a rendered flow holds one well-formed call per client message, in order, each the call that message renders to |
| HttpRenderer.RenderFlowError | services/api/data2req.py:104-109 | a flow fails exactly when some client message fails, and then with the error of the first one |
| HttpRenderer.MultipartNeverRenders | services/api/data2req.py:41-43 | a multipart request renders neither alone nor anywhere in a flow |
| HttpRenderer.ServerMessagesIgnored | services/api/data2req.py:104-105 | flows with the same port and the same client messages render alike |
| HttpRenderer.SingleAgreesWithFlow | services/api/data2req.py:47-111 | rendering a request alone and as a one-message flow succeed together and yield the same calls |

## Left out

- Base64 decoding of `message["b64"]` (flow2pwn.py:27) and the UTF-8
  `encode()` of `message['data']` (data2req.py:106) are left out. Each
  message carries both payloads already as bytes.
- The standard library's `BaseHTTPRequestHandler.parse_request` is not part
  of this model. `ParseRequestLine` and `HeaderFields` are a minimal
  stand-in. They do not model:
  - the HTTP version number check;
  - the `//` path normalisation;
  - header continuation lines and the header count limit;
  - the `Connection`/`Expect` handling.
- HttpRequest.HTTPRequest.constructor: when `parse_request` fails, the
  source raises `AttributeError`, because `self.headers` is never set. The
  model records status 400 instead, including for an empty request line,
  for which the source sends no error. The decoder reports both as
  `MalformedRequest`.
- `parse_qs(body.decode())` and `json.loads(body)` are parameters
  (`BodyParsers`); `None` stands for the exception either raises.
- The Jinja2 templates' whitespace and Python's `str(dict)`/`repr`
  formatting of headers, data and path are left out. The HTTP scripts are
  modelled by their content (`HttpScript`), not their text.
- Common.Lower: does not model `str.lower()` above U+00FF, whose case
  mappings are outside ISO-8859-1. Request text is decoded as ISO-8859-1,
  so no such character arises from a request.
- The web API, the frontend and the configuration files that call these
  generators are not part of this model.
