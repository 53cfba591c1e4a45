/** `HTTPRequest` (services/api/data2req.py): a raw client request is split
    into request line, headers and body.

    The source borrows the request-line and header parser of Python's
    `BaseHTTPRequestHandler.parse_request`, whose code is not part of this
    model. `ParseRequestLine` and `HeaderFields` are a minimal stand-in in
    the spirit of section 3 of RFC 9112 (method, target and version separated
    by whitespace; `Name: value` header lines up to the first blank line); they
    do not claim to reproduce every rule of the standard library. What the
    source itself does with the parse is modelled exactly: `dict(self.headers)`
    (`HeaderDict`) and the body split at the first blank line (`SplitBody`). */
module HttpRequest {
  import opened Common

  // ---------------------------------------------------------------------
  // Request line

  /** The index just past the first line feed of `s`, or `|s|` when there is
      none: the length of what `readline()` returns. */
  function LineEnd(s: seq<byte>): (n: nat)
    ensures n <= |s|
    ensures s != [] ==> n > 0
    ensures n == |s| || s[n - 1] == 0x0a
    ensures forall j :: 0 <= j < n - 1 ==> s[j] != 0x0a
  {
    if s == [] then 0 else if s[0] == 0x0a then 1 else 1 + LineEnd(s[1..])
  }

  /** `rfile.readline()` on a fresh buffer. */
  function ReadLine(s: seq<byte>): seq<byte> {
    s[..LineEnd(s)]
  }

  /** Python's `str.isspace()` on the ISO-8859-1 range. */
  predicate IsSpace(c: char) {
    c == ' ' || '\t' <= c <= '\r' || '\U{1c}' <= c <= '\U{1f}' || c == '\U{85}' || c == '\U{a0}'
  }

  /** `s.rstrip('\r\n')`. */
  function RStripLineEnd(s: string): (r: string)
    ensures |r| <= |s| && r == s[..|r|]
    ensures r == [] || (r[|r| - 1] != '\r' && r[|r| - 1] != '\n')
  {
    if s != [] && (s[|s| - 1] == '\r' || s[|s| - 1] == '\n') then RStripLineEnd(s[..|s| - 1]) else s
  }

  /** The length of the word `s` starts with. */
  function WordLength(s: string): (n: nat)
    ensures n <= |s|
    ensures forall j :: 0 <= j < n ==> !IsSpace(s[j])
    ensures n < |s| ==> IsSpace(s[n])
  {
    if s == [] || IsSpace(s[0]) then 0 else 1 + WordLength(s[1..])
  }

  /** Python's `s.split()`: the maximal runs of non-whitespace characters. */
  function Words(s: string): (ws: seq<string>)
    ensures forall i :: 0 <= i < |ws| ==> ws[i] != [] && forall j :: 0 <= j < |ws[i]| ==> !IsSpace(ws[i][j])
    decreases |s|
  {
    if s == [] then []
    else if IsSpace(s[0]) then Words(s[1..])
    else
      var n := WordLength(s);
      [s[..n]] + Words(s[n..])
  }

  datatype RequestLine = RequestLine(command: string, path: string)

  /** The request-line part of `parse_request`: decode as ISO-8859-1, strip
      the line end, split on whitespace; a third word must start with
      `HTTP/`, there must be two or three words, and a two-word (HTTP/0.9)
      request must be a GET. The error is the reason the parser reports. */
  function ParseRequestLine(rawRequestLine: seq<byte>): (r: Result<RequestLine, string>)
    ensures r.Ok? ==> var ws := Words(RStripLineEnd(Latin1(rawRequestLine)));
      (|ws| == 3 || (|ws| == 2 && ws[0] == "GET")) &&
      r.value == RequestLine(ws[0], ws[1])
    ensures var ws := Words(RStripLineEnd(Latin1(rawRequestLine)));
      r.Ok? <==> (|ws| == 3 && StartsWith(ws[2], "HTTP/")) || (|ws| == 2 && ws[0] == "GET")
  {
    var words := Words(RStripLineEnd(Latin1(rawRequestLine)));
    if |words| == 0 then Err("Empty request line")
    else if |words| >= 3 && !StartsWith(words[|words| - 1], "HTTP/") then Err("Bad request version")
    else if !(2 <= |words| <= 3) then Err("Bad request syntax")
    else if |words| == 2 && words[0] != "GET" then Err("Bad HTTP/0.9 request type")
    else Ok(RequestLine(words[0], words[1]))
  }

  /** A run of one or more non-whitespace characters. */
  predicate IsWord(w: string) {
    w != [] && forall j :: 0 <= j < |w| ==> !IsSpace(w[j])
  }

  /** `WordLength` is the length of the leading non-whitespace run. */
  lemma {:induction false} WordLengthIs(s: string, n: nat)
    requires n <= |s|
    requires forall j :: 0 <= j < n ==> !IsSpace(s[j])
    requires n < |s| ==> IsSpace(s[n])
    ensures WordLength(s) == n
  {
    if n > 0 {
      var t := s[1..];
      assert forall j :: 0 <= j < n - 1 ==> t[j] == s[j + 1];
      WordLengthIs(t, n - 1);
    }
  }

  /** A word followed by one space is split off as the first word. */
  lemma WordsSpaced(w: string, t: string)
    requires IsWord(w)
    ensures Words(w + [' '] + t) == [w] + Words(t)
  {
    var s := w + [' '] + t;
    assert s[..|w|] == w && s[|w|] == ' ';
    WordLengthIs(s, |w|);
    var u := s[|w|..];
    assert u == [' '] + t && u[1..] == t;
    assert Words(u) == Words(t);
  }

  /** A single word splits to itself. */
  lemma WordsSingle(w: string)
    requires IsWord(w)
    ensures Words(w) == [w]
  {
    WordLengthIs(w, |w|);
    assert w[..|w|] == w && w[|w|..] == [];
  }

  /** Three words joined by single spaces split back into those words. */
  lemma WordsThree(m: string, p: string, v: string)
    requires IsWord(m) && IsWord(p) && IsWord(v)
    ensures Words(m + [' '] + p + [' '] + v) == [m, p, v]
  {
    var t := p + [' '] + v;
    WordsSingle(v);
    WordsSpaced(p, v);
    assert m + [' '] + p + [' '] + v == m + [' '] + t;
    WordsSpaced(m, t);
  }

  /** Stripping drops a trailing CR or LF. */
  lemma StripLineEndStep(s: string, c: char)
    requires c == '\r' || c == '\n'
    ensures RStripLineEnd(s + [c]) == RStripLineEnd(s)
  {
    assert (s + [c])[..|s|] == s;
  }

  /** A CRLF line end is stripped, and only it. */
  lemma StripCrLf(s: string)
    requires s == [] || (s[|s| - 1] != '\r' && s[|s| - 1] != '\n')
    ensures RStripLineEnd(s + ['\r', '\n']) == s
  {
    assert s + ['\r', '\n'] == s + ['\r'] + ['\n'];
    StripLineEndStep(s + ['\r'], '\n');
    StripLineEndStep(s, '\r');
  }

  /** A request line `METHOD SP PATH SP HTTP/x CRLF` parses to its method
      and path. */
  lemma ParseThreeWords(line: seq<byte>, m: string, p: string, v: string)
    requires IsWord(m) && IsWord(p) && IsWord(v) && StartsWith(v, "HTTP/")
    requires Latin1(line) == m + [' '] + p + [' '] + v + ['\r', '\n']
    ensures ParseRequestLine(line) == Ok(RequestLine(m, p))
  {
    StripCrLf(m + [' '] + p + [' '] + v);
    WordsThree(m, p, v);
  }

  /** The request line of the `GET /ping HTTP/1.1` example, as bytes. */
  lemma ParsePingRequestLine(line: seq<byte>)
    requires line == [0x47, 0x45, 0x54, 0x20, 0x2f, 0x70, 0x69, 0x6e, 0x67, 0x20,
                      0x48, 0x54, 0x54, 0x50, 0x2f, 0x31, 0x2e, 0x31, 0x0d, 0x0a]
    ensures ParseRequestLine(line) == Ok(RequestLine("GET", "/ping"))
  {
    var v := "HTTP/1.1";
    PingLatin1(line, Latin1(line));
    assert v[..5] == "HTTP/";
    ParseThreeWords(line, "GET", "/ping", v);
  }

  /** The ping request line read as ISO-8859-1, word by word. */
  lemma PingLatin1(line: seq<byte>, s: string)
    requires line == [0x47, 0x45, 0x54, 0x20, 0x2f, 0x70, 0x69, 0x6e, 0x67, 0x20,
                      0x48, 0x54, 0x54, 0x50, 0x2f, 0x31, 0x2e, 0x31, 0x0d, 0x0a]
    requires s == Latin1(line)
    ensures s == "GET" + [' '] + "/ping" + [' '] + "HTTP/1.1" + ['\r', '\n']
  {
    assert forall i :: 0 <= i < 20 ==> s[i] as int == line[i];
  }

  // ---------------------------------------------------------------------
  // Header block

  datatype HeaderLine = Field(name: string, value: string) | Skip | End

  /** The index of the first ':' of `s`, or `|s|`. */
  function ColonIndex(s: string): (n: nat)
    ensures n <= |s|
    ensures n < |s| ==> s[n] == ':'
    ensures forall j :: 0 <= j < n ==> s[j] != ':'
  {
    if s == [] || s[0] == ':' then 0 else 1 + ColonIndex(s[1..])
  }

  /** `s.lstrip(' \t')`. */
  function LStripBlank(s: string): (r: string)
    ensures |r| <= |s| && r == s[|s| - |r|..]
    ensures r == [] || (r[0] != ' ' && r[0] != '\t')
  {
    if s != [] && (s[0] == ' ' || s[0] == '\t') then LStripBlank(s[1..]) else s
  }

  /** One header line: `Name: value` with a name of visible characters other
      than ':', the value with leading blanks removed. A line starting with
      ':' is skipped; any other line ends the header block. */
  function ParseHeaderLine(line: string): HeaderLine {
    var i := ColonIndex(line);
    if i == |line| then End
    else if i == 0 then Skip
    else if exists j :: 0 <= j < i && !('!' <= line[j] <= '~') then End
    else Field(line[..i], LStripBlank(line[i + 1..]))
  }

  /** The header fields, in order, read line by line up to the first blank
      line (`\r\n`, `\n`) or the end of the buffer. */
  function HeaderFields(rest: seq<byte>): seq<(string, string)>
    decreases |rest|
  {
    if rest == [] then []
    else
      var n := LineEnd(rest);
      var line := rest[..n];
      if line == [0x0d, 0x0a] || line == [0x0a] then []
      else
        match ParseHeaderLine(RStripLineEnd(Latin1(line)))
        case Field(name, value) => [(name, value)] + HeaderFields(rest[n..])
        case Skip => HeaderFields(rest[n..])
        case End => []
  }

  /** The value of the first field whose name equals `key` ignoring case, as
      `Message.__getitem__` returns it; "" when there is none. */
  function FirstValue(fields: seq<(string, string)>, key: string): (v: string)
    ensures (exists j :: 0 <= j < |fields| && Lower(fields[j].0) == Lower(key)) ==>
      exists j :: 0 <= j < |fields| && Lower(fields[j].0) == Lower(key) && v == fields[j].1 &&
        forall i :: 0 <= i < j ==> Lower(fields[i].0) != Lower(key)
  {
    if fields == [] then ""
    else if Lower(fields[0].0) == Lower(key) then fields[0].1
    else FirstValue(fields[1..], key)
  }

  function FieldNames(fields: seq<(string, string)>): set<string> {
    set i | 0 <= i < |fields| :: fields[i].0
  }

  /** `dict(self.headers)`: every name as it was spelled, each mapped to the
      value of the first field with that name ignoring case. So `Accept` and
      `accept` both appear, with the same value. */
  function HeaderDict(fields: seq<(string, string)>): (h: map<string, string>)
    ensures h.Keys == FieldNames(fields)
  {
    map name | name in FieldNames(fields) :: FirstValue(fields, name)
  }

  /** A key of the dict holds the value of the first field with that name,
      ignoring case. */
  lemma HeaderDictValue(fields: seq<(string, string)>, name: string)
    requires name in HeaderDict(fields)
    ensures exists j ::
      && 0 <= j < |fields| && Lower(fields[j].0) == Lower(name)
      && HeaderDict(fields)[name] == fields[j].1
      && (forall i :: 0 <= i < j ==> Lower(fields[i].0) != Lower(name))
  {
    var i :| 0 <= i < |fields| && fields[i].0 == name;
    assert Lower(fields[i].0) == Lower(name);
  }

  // ---------------------------------------------------------------------
  // Body

  const Separator: seq<byte> := [0x0d, 0x0a, 0x0d, 0x0a]

  predicate SeparatorAt(raw: seq<byte>, i: int) {
    0 <= i && i + 4 <= |raw| && raw[i..i + 4] == Separator
  }

  /** The first `\r\n\r\n` at or after `from`. */
  function FindSeparator(raw: seq<byte>, from: nat): (r: Option<nat>)
    ensures r.Some? ==> from <= r.value && SeparatorAt(raw, r.value)
    ensures r.Some? ==> forall j :: from <= j < r.value ==> !SeparatorAt(raw, j)
    ensures r.None? ==> forall j :: from <= j ==> !SeparatorAt(raw, j)
    decreases |raw| - from
  {
    if from + 4 > |raw| then None
    else if raw[from..from + 4] == Separator then Some(from)
    else FindSeparator(raw, from + 1)
  }

  /** `bytes.isspace()` for one byte: space, \t, \n, \v, \f, \r. */
  predicate IsAsciiSpace(b: byte) {
    b == 0x20 || 0x09 <= b <= 0x0d
  }

  /** `bytes.rstrip()`. */
  function RStrip(s: seq<byte>): (r: seq<byte>)
    ensures |r| <= |s| && r == s[..|r|]
    ensures r == [] || !IsAsciiSpace(r[|r| - 1])
    ensures forall j :: |r| <= j < |s| ==> IsAsciiSpace(s[j])
  {
    if s != [] && IsAsciiSpace(s[|s| - 1]) then RStrip(s[..|s| - 1]) else s
  }

  /** `raw.split(b"\r\n\r\n", 1)[1].rstrip() if b"\r\n\r\n" in raw else None`. */
  function SplitBody(raw: seq<byte>): (r: Option<seq<byte>>)
    ensures r.None? <==> forall i :: !SeparatorAt(raw, i)
    ensures r.Some? ==> exists i :: FirstSeparator(raw, i) && r.value == RStrip(raw[i + 4..])
  {
    match FindSeparator(raw, 0)
    case None => None
    case Some(i) => assert FirstSeparator(raw, i); Some(RStrip(raw[i + 4..]))
  }

  /** `i` is where the first blank line starts. */
  predicate FirstSeparator(raw: seq<byte>, i: int) {
    SeparatorAt(raw, i) && forall j :: 0 <= j < i ==> !SeparatorAt(raw, j)
  }

  // ---------------------------------------------------------------------
  // The request object

  /** The parse of one request: what `parse_request` leaves behind. */
  datatype Parsed = Parsed(command: string, path: string, fields: seq<(string, string)>)

  /** `parse_request()` on the request line and the rest of the buffer. */
  function ParseRequest(rawRequestLine: seq<byte>, rest: seq<byte>): Result<Parsed, string> {
    match ParseRequestLine(rawRequestLine)
    case Err(reason) => Err(reason)
    case Ok(line) => Ok(Parsed(line.command, line.path, HeaderFields(rest)))
  }

  /** The request object the source builds. Its fields are assigned in the
      order of the source's `__init__`; `SendError` records a failure instead
      of answering a client, as the source's override does. Where
      `parse_request` fails the source goes on to raise (its `headers` is never
      set); this model records the failure with status 400 and leaves
      `headers` empty, and the decoder turns it into `MalformedRequest`. */
  class HTTPRequest {
    var rfile: seq<byte>
    var rawRequestLine: seq<byte>
    var errorCode: Option<int>
    var errorMessage: Option<string>
    var command: string
    var path: string
    var headers: map<string, string>
    var body: Option<seq<byte>>

    constructor (rawHttpRequest: seq<byte>)
      ensures rfile == rawHttpRequest
      ensures rawRequestLine == ReadLine(rawHttpRequest)
      ensures body == SplitBody(rawHttpRequest)
      ensures match ParseRequest(rawRequestLine, rawHttpRequest[|rawRequestLine|..])
        case Ok(p) =>
          errorCode == None && errorMessage == None &&
          command == p.command && path == p.path && headers == HeaderDict(p.fields)
        case Err(reason) =>
          errorCode == Some(400) && errorMessage == Some(reason) && headers == map[]
    {
      rfile := rawHttpRequest;
      rawRequestLine := ReadLine(rawHttpRequest);
      errorCode, errorMessage := None, None;
      command, path, headers, body := "", "", map[], None;
      new;
      var parsed := ParseRequest(rawRequestLine, rfile[|rawRequestLine|..]);
      if parsed.Err? {
        SendError(400, parsed.error);
      } else {
        command, path := parsed.value.command, parsed.value.path;
        headers := HeaderDict(parsed.value.fields);
      }
      body := SplitBody(rawHttpRequest);
    }

    /** `send_error(code, message)`: remember the failure. */
    method SendError(code: int, message: string)
      modifies this
      ensures errorCode == Some(code) && errorMessage == Some(message)
      ensures rfile == old(rfile) && rawRequestLine == old(rawRequestLine)
      ensures command == old(command) && path == old(path)
      ensures headers == old(headers) && body == old(body)
    {
      errorCode := Some(code);
      errorMessage := Some(message);
    }
  }
}
