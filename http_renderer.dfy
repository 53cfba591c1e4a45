/** `convert_single_http_requests` and `convert_flow_to_http_requests`
    (services/api/data2req.py): one `requests` call per client request.

    The generated Python text is modelled by its content, `HttpScript`: how the
    host is found, whether a session is used, the port, and the calls in
    order. The template's whitespace and Python's `str`/`repr` formatting of
    the values are not part of this model. */
module HttpRenderer {
  import opened Common
  import opened RequestMethod
  import opened RequestDecoder

  /** One replayed request: `<method>(url + repr(path), <paramName>=data,
      headers)`. */
  datatype Call = Call(
    name: string,
    path: string,
    paramName: string,
    data: BodyValue,
    headers: map<string, string>)

  /** `hostFallsBackToArgv` is the flow template's `os.getenv("TARGET_IP",
      sys.argv[1])`; the single-request template reads only the environment. */
  datatype HttpScript = HttpScript(
    hostFallsBackToArgv: bool,
    useSession: bool,
    port: int,
    calls: seq<Call>)

  /** A call the script may contain: a known lower-case method and a path
      starting with '/'. */
  predicate WellFormed(c: Call) {
    c.name in Methods && StartsWith(c.path, "/")
  }

  /** The checks of `convert_single_http_requests`, in its order: the path,
      then the method, then `dict(headers)` while the template arguments are
      built. */
  function SingleCall(d: Decoded): (r: Result<Call, Error>)
    requires d.headers.Some? <==> d.paramName.Some?
    ensures r.Ok? <==> StartsWith(d.path, "/") && Lower(d.command) in Methods && d.headers.Some?
    ensures r.Ok? ==> WellFormed(r.value)
    ensures r.Ok? ==> r.value == Call(Lower(d.command), d.path, d.paramName.value, d.data, d.headers.value)
    ensures !StartsWith(d.path, "/") ==> r == Err(InvalidPath)
    ensures StartsWith(d.path, "/") && Lower(d.command) !in Methods ==> r == Err(InvalidMethod(Lower(d.command)))
    ensures StartsWith(d.path, "/") && Lower(d.command) in Methods && d.headers.None? ==> r == Err(HeadersMissing)
  {
    if !StartsWith(d.path, "/") then Err(InvalidPath)
    else match ValidateRequestMethod(d.command)
      case Err(e) => Err(e)
      case Ok(name) =>
        if d.headers.None? then Err(HeadersMissing)
        else Ok(Call(name, d.path, d.paramName.value, d.data, d.headers.value))
  }

  /** The checks of the flow loop, in its order: the method, then the path,
      then `dict(headers)` when the message entry is built. */
  function FlowCall(d: Decoded): (r: Result<Call, Error>)
    requires d.headers.Some? <==> d.paramName.Some?
    ensures r.Ok? <==> StartsWith(d.path, "/") && Lower(d.command) in Methods && d.headers.Some?
    ensures r.Ok? ==> WellFormed(r.value)
    ensures r.Ok? ==> r.value == Call(Lower(d.command), d.path, d.paramName.value, d.data, d.headers.value)
    ensures Lower(d.command) !in Methods ==> r == Err(InvalidMethod(Lower(d.command)))
    ensures Lower(d.command) in Methods && !StartsWith(d.path, "/") ==> r == Err(InvalidPath)
    ensures Lower(d.command) in Methods && StartsWith(d.path, "/") && d.headers.None? ==> r == Err(HeadersMissing)
  {
    match ValidateRequestMethod(d.command)
    case Err(e) => Err(e)
    case Ok(name) =>
      if !StartsWith(d.path, "/") then Err(InvalidPath)
      else if d.headers.None? then Err(HeadersMissing)
      else Ok(Call(name, d.path, d.paramName.value, d.data, d.headers.value))
  }

  /** The two renderers accept the same decoded requests and build the same
      call from them; they differ only in which error a request with both a
      bad path and a bad method reports. */
  lemma CheckOrder(d: Decoded)
    requires d.headers.Some? <==> d.paramName.Some?
    ensures SingleCall(d).Ok? <==> FlowCall(d).Ok?
    ensures SingleCall(d).Ok? ==> SingleCall(d) == FlowCall(d)
    ensures !StartsWith(d.path, "/") && Lower(d.command) !in Methods ==>
      SingleCall(d) == Err(InvalidPath) && FlowCall(d) == Err(InvalidMethod(Lower(d.command)))
  {
  }

  /** The multipart early return never renders: its `None` headers fail
      `dict(None)` if the path and method pass. */
  lemma PlaceholderNeverRenders(d: Decoded)
    requires d.headers.None? && d.paramName.None?
    ensures SingleCall(d).Err? && FlowCall(d).Err?
    ensures StartsWith(d.path, "/") && Lower(d.command) in Methods ==>
      SingleCall(d) == Err(HeadersMissing) && FlowCall(d) == Err(HeadersMissing)
  {
  }

  // ---------------------------------------------------------------------
  // One request

  function RenderSingle(rawRequest: seq<byte>, dstPort: int, tokenize: bool, useSession: bool, parsers: BodyParsers): (r: Result<HttpScript, Error>)
    ensures r.Ok? ==> |r.value.calls| == 1 && WellFormed(r.value.calls[0])
    ensures r.Ok? ==> !r.value.hostFallsBackToArgv && r.value.useSession == useSession && r.value.port == dstPort
    ensures r.Ok? <==>
      var d := Decode(rawRequest, tokenize, parsers);
      d.Ok? && StartsWith(d.value.path, "/") && Lower(d.value.command) in Methods && d.value.paramName.Some?
    ensures r.Ok? ==>
      var d := Decode(rawRequest, tokenize, parsers).value;
      r.value.calls[0] == Call(Lower(d.command), d.path, d.paramName.value, d.data, d.headers.value)
    ensures Decode(rawRequest, tokenize, parsers).Err? ==> r == Err(Decode(rawRequest, tokenize, parsers).error)
    ensures Decode(rawRequest, tokenize, parsers).Ok? && SingleCall(Decode(rawRequest, tokenize, parsers).value).Err? ==>
      r == Err(SingleCall(Decode(rawRequest, tokenize, parsers).value).error)
  {
    match Decode(rawRequest, tokenize, parsers)
    case Err(e) => Err(e)
    case Ok(d) =>
      match SingleCall(d)
      case Err(e) => Err(e)
      case Ok(c) => Ok(HttpScript(false, useSession, dstPort, [c]))
  }

  /** `convert_single_http_requests(raw_request, flow, tokenize,
      use_requests_session)`. */
  method ConvertSingleHttpRequests(rawRequest: seq<byte>, flow: Flow, tokenize: bool, useSession: bool, parsers: BodyParsers)
    returns (r: Result<HttpScript, Error>)
    ensures r == RenderSingle(rawRequest, flow.dstPort, tokenize, useSession, parsers)
  {
    var decoded := DecodeHttpRequest(rawRequest, tokenize, parsers);
    if decoded.Err? {
      return Err(decoded.error);
    }
    var request := decoded.value;
    if !StartsWith(request.path, "/") {
      return Err(InvalidPath);
    }
    var requestMethod := ValidateRequestMethod(request.command);
    if requestMethod.Err? {
      return Err(requestMethod.error);
    }
    if request.headers.None? {
      return Err(HeadersMissing);
    }
    var call := Call(requestMethod.value, request.path, request.paramName.value, request.data, request.headers.value);
    return Ok(HttpScript(false, useSession, flow.dstPort, [call]));
  }

  // ---------------------------------------------------------------------
  // A whole flow

  /** The call for one client message, or the error it raises. */
  function ClientCall(m: Message, tokenize: bool, parsers: BodyParsers): (r: Result<Call, Error>)
    ensures r.Ok? ==> WellFormed(r.value)
  {
    match Decode(m.data, tokenize, parsers)
    case Err(e) => Err(e)
    case Ok(d) => FlowCall(d)
  }

  function ClientCallFor(tokenize: bool, parsers: BodyParsers): Message -> Result<Call, Error> {
    m => ClientCall(m, tokenize, parsers)
  }

  /** The calls for the messages in order, `callFor` applied to each client
      message and server messages skipped; the first failing client message
      ends the rendering with its error. */
  function RenderCalls(ms: seq<Message>, callFor: Message -> Result<Call, Error>): (r: Result<seq<Call>, Error>)
    ensures r.Ok? ==> |r.value| == |Clients(ms)|
  {
    if ms == [] then Ok([])
    else
      match RenderCalls(ms[..|ms| - 1], callFor)
      case Err(e) => Err(e)
      case Ok(calls) =>
        var m := ms[|ms| - 1];
        if !IsClient(m) then Ok(calls)
        else
          match callFor(m)
          case Err(e) => Err(e)
          case Ok(c) => Ok(calls + [c])
  }

  function RenderFlow(flow: Flow, tokenize: bool, useSession: bool, parsers: BodyParsers): (r: Result<HttpScript, Error>)
    ensures r.Ok? ==> r.value.hostFallsBackToArgv && r.value.useSession == useSession && r.value.port == flow.dstPort
  {
    match RenderCalls(flow.messages, ClientCallFor(tokenize, parsers))
    case Err(e) => Err(e)
    case Ok(calls) => Ok(HttpScript(true, useSession, flow.dstPort, calls))
  }

  /** Once a prefix of the messages fails, the whole flow fails with the same
      error. */
  lemma {:induction false} ErrorPersists(ms: seq<Message>, k: nat, callFor: Message -> Result<Call, Error>, e: Error)
    requires k <= |ms| && RenderCalls(ms[..k], callFor) == Err(e)
    ensures RenderCalls(ms, callFor) == Err(e)
    decreases |ms| - k
  {
    if k == |ms| {
      assert ms[..k] == ms;
    } else {
      assert ms[..k + 1][..k] == ms[..k];
      ErrorPersists(ms, k + 1, callFor, e);
    }
  }

  /** One more message: a server message adds nothing, a client message adds
      its call or ends the rendering with its error. */
  lemma RenderCallsStep(ms: seq<Message>, i: nat, callFor: Message -> Result<Call, Error>)
    requires i < |ms| && RenderCalls(ms[..i], callFor).Ok?
    ensures RenderCalls(ms[..i + 1], callFor) ==
      if !IsClient(ms[i]) then RenderCalls(ms[..i], callFor)
      else match callFor(ms[i])
        case Err(e) => Err(e)
        case Ok(c) => Ok(RenderCalls(ms[..i], callFor).value + [c])
  {
    assert ms[..i + 1][..i] == ms[..i];
  }

  /** `ClientCall` read off an already decoded request. */
  lemma ClientCallOf(m: Message, tokenize: bool, parsers: BodyParsers, decoded: Result<Decoded, Error>)
    requires decoded == Decode(m.data, tokenize, parsers)
    ensures ClientCallFor(tokenize, parsers)(m) ==
      match decoded
      case Err(e) => Err(e)
      case Ok(d) => FlowCall(d)
  {
  }

  /** `convert_flow_to_http_requests(flow, tokenize, use_requests_session)`. */
  method ConvertFlowToHttpRequests(flow: Flow, tokenize: bool, useSession: bool, parsers: BodyParsers)
    returns (r: Result<HttpScript, Error>)
    ensures r == RenderFlow(flow, tokenize, useSession, parsers)
  {
    var ms := flow.messages;
    ghost var callFor := ClientCallFor(tokenize, parsers);
    var messages: seq<Call> := [];
    for i := 0 to |ms|
      invariant RenderCalls(ms[..i], callFor) == Ok(messages)
    {
      RenderCallsStep(ms, i, callFor);
      var message := ms[i];
      if message.from == "c" {
        var decoded := DecodeHttpRequest(message.data, tokenize, parsers);
        ClientCallOf(message, tokenize, parsers, decoded);
        if decoded.Err? {
          ErrorPersists(ms, i + 1, callFor, decoded.error);
          return Err(decoded.error);
        }
        var request := decoded.value;
        var requestMethod := ValidateRequestMethod(request.command);
        if requestMethod.Err? {
          ErrorPersists(ms, i + 1, callFor, requestMethod.error);
          return Err(requestMethod.error);
        }
        if !StartsWith(request.path, "/") {
          ErrorPersists(ms, i + 1, callFor, InvalidPath);
          return Err(InvalidPath);
        }
        if request.headers.None? {
          ErrorPersists(ms, i + 1, callFor, HeadersMissing);
          return Err(HeadersMissing);
        }
        messages := messages + [Call(requestMethod.value, request.path, request.paramName.value, request.data, request.headers.value)];
      }
    }
    assert ms[..|ms|] == ms;
    return Ok(HttpScript(true, useSession, flow.dstPort, messages));
  }

  // ---------------------------------------------------------------------
  // What the flow rendering means

  /** The client messages of a flow, in order. */
  function Clients(ms: seq<Message>): (cs: seq<Message>)
    ensures |cs| <= |ms|
    ensures forall i :: 0 <= i < |cs| ==> IsClient(cs[i])
  {
    if ms == [] then []
    else if IsClient(ms[|ms| - 1]) then Clients(ms[..|ms| - 1]) + [ms[|ms| - 1]]
    else Clients(ms[..|ms| - 1])
  }

  /** Keeping the client messages commutes with concatenation; with
      `ClientsSingle`, `Clients` is the subsequence of client messages in
      their original order. */
  lemma {:induction false} ClientsAppend(a: seq<Message>, b: seq<Message>)
    ensures Clients(a + b) == Clients(a) + Clients(b)
  {
    if b == [] {
      assert a + b == a;
    } else {
      var init, m := b[..|b| - 1], b[|b| - 1];
      ClientsAppend(a, init);
      assert (a + b)[..|a + b| - 1] == a + init;
      assert (a + b)[|a + b| - 1] == m;
      if IsClient(m) {
        calc {
          Clients(a + b);
          Clients(a + init) + [m];
          (Clients(a) + Clients(init)) + [m];
          Clients(a) + (Clients(init) + [m]);
        }
      }
    }
  }

  /** One message is kept exactly when a client sent it. */
  lemma ClientsSingle(m: Message)
    ensures Clients([m]) == if IsClient(m) then [m] else []
  {
    assert [m][..0] == [];
  }

  /** Every client message is kept, and nothing else. */
  lemma {:induction false} ClientsMembers(ms: seq<Message>)
    ensures forall m :: m in Clients(ms) <==> m in ms && IsClient(m)
  {
    if ms != [] {
      ClientsMembers(ms[..|ms| - 1]);
      assert ms == ms[..|ms| - 1] + [ms[|ms| - 1]];
    }
  }

  /** Server messages do not matter: the messages render as their client
      messages alone do. */
  lemma {:induction false} RenderCallsClients(ms: seq<Message>, callFor: Message -> Result<Call, Error>)
    ensures RenderCalls(ms, callFor) == RenderCalls(Clients(ms), callFor)
  {
    if ms != [] {
      var init, m := ms[..|ms| - 1], ms[|ms| - 1];
      RenderCallsClients(init, callFor);
      if IsClient(m) {
        var cs := Clients(init) + [m];
        assert cs[..|cs| - 1] == Clients(init);
      }
    }
  }

  /** The rendering succeeds exactly when every client message yields a
      call. */
  lemma {:induction false} RenderCallsOk(ms: seq<Message>, callFor: Message -> Result<Call, Error>)
    ensures RenderCalls(ms, callFor).Ok? <==>
      forall i :: 0 <= i < |ms| && IsClient(ms[i]) ==> callFor(ms[i]).Ok?
  {
    if ms != [] {
      var init := ms[..|ms| - 1];
      RenderCallsOk(init, callFor);
      assert forall i :: 0 <= i < |init| ==> init[i] == ms[i];
    }
  }

  /** On client messages alone, the calls are those of the messages, one
      each, in order. */
  lemma {:induction false} RenderCallsInOrder(cs: seq<Message>, callFor: Message -> Result<Call, Error>)
    requires forall i :: 0 <= i < |cs| ==> IsClient(cs[i])
    requires RenderCalls(cs, callFor).Ok?
    ensures |RenderCalls(cs, callFor).value| == |cs|
    ensures forall j :: 0 <= j < |cs| ==> callFor(cs[j]) == Ok(RenderCalls(cs, callFor).value[j])
  {
    if cs != [] {
      var init := cs[..|cs| - 1];
      assert forall i :: 0 <= i < |init| ==> init[i] == cs[i];
      RenderCallsInOrder(init, callFor);
    }
  }

  /** A failure is the error of the FIRST client message that fails. */
  lemma {:induction false} RenderCallsFirstError(ms: seq<Message>, callFor: Message -> Result<Call, Error>)
    requires RenderCalls(ms, callFor).Err?
    ensures exists i ::
      && 0 <= i < |ms| && IsClient(ms[i])
      && callFor(ms[i]) == Err(RenderCalls(ms, callFor).error)
      && (forall j :: 0 <= j < i && IsClient(ms[j]) ==> callFor(ms[j]).Ok?)
  {
    var init := ms[..|ms| - 1];
    assert forall i :: 0 <= i < |init| ==> init[i] == ms[i];
    if RenderCalls(init, callFor).Err? {
      RenderCallsFirstError(init, callFor);
      var i :| && 0 <= i < |init| && IsClient(init[i])
               && callFor(init[i]) == Err(RenderCalls(init, callFor).error)
               && (forall j :: 0 <= j < i && IsClient(init[j]) ==> callFor(init[j]).Ok?);
      assert ms[i] == init[i];
    } else {
      RenderCallsOk(init, callFor);
      assert IsClient(ms[|ms| - 1]);
    }
  }

  /** A rendered flow holds one well-formed call per client message, in
      order: the call that message renders to. */
  lemma RenderFlowCalls(flow: Flow, tokenize: bool, useSession: bool, parsers: BodyParsers)
    requires RenderFlow(flow, tokenize, useSession, parsers).Ok?
    ensures var calls := RenderFlow(flow, tokenize, useSession, parsers).value.calls;
      && |calls| == |Clients(flow.messages)|
      && forall j :: 0 <= j < |calls| ==>
           WellFormed(calls[j]) && ClientCall(Clients(flow.messages)[j], tokenize, parsers) == Ok(calls[j])
  {
    var callFor := ClientCallFor(tokenize, parsers);
    RenderCallsClients(flow.messages, callFor);
    RenderCallsInOrder(Clients(flow.messages), callFor);
  }

  /** A flow fails to render exactly when one of its client messages fails,
      and then with the error of the first that does. */
  lemma RenderFlowError(flow: Flow, tokenize: bool, useSession: bool, parsers: BodyParsers)
    ensures RenderFlow(flow, tokenize, useSession, parsers).Err? <==>
      exists i :: 0 <= i < |flow.messages| && IsClient(flow.messages[i]) &&
        ClientCall(flow.messages[i], tokenize, parsers).Err?
    ensures RenderFlow(flow, tokenize, useSession, parsers).Err? ==>
      exists i ::
        && 0 <= i < |flow.messages| && IsClient(flow.messages[i])
        && ClientCall(flow.messages[i], tokenize, parsers) == Err(RenderFlow(flow, tokenize, useSession, parsers).error)
        && (forall j :: 0 <= j < i && IsClient(flow.messages[j]) ==> ClientCall(flow.messages[j], tokenize, parsers).Ok?)
  {
    var callFor := ClientCallFor(tokenize, parsers);
    RenderCallsOk(flow.messages, callFor);
    if RenderFlow(flow, tokenize, useSession, parsers).Err? {
      RenderCallsFirstError(flow.messages, callFor);
    }
  }

  /** A multipart request never renders, alone or anywhere in a flow. */
  lemma MultipartNeverRenders(flow: Flow, i: nat, tokenize: bool, useSession: bool, parsers: BodyParsers)
    requires i < |flow.messages| && IsClient(flow.messages[i])
    requires Decode(flow.messages[i].data, tokenize, parsers).Ok?
    requires Decode(flow.messages[i].data, tokenize, parsers).value.data.Placeholder?
    ensures RenderSingle(flow.messages[i].data, flow.dstPort, tokenize, useSession, parsers).Err?
    ensures RenderFlow(flow, tokenize, useSession, parsers).Err?
  {
    var m := flow.messages[i];
    var decoded := Decode(m.data, tokenize, parsers);
    PlaceholderNeverRenders(decoded.value);
    ClientCallOf(m, tokenize, parsers, decoded);
    assert ClientCall(m, tokenize, parsers).Err?;
    RenderFlowError(flow, tokenize, useSession, parsers);
  }

  /** Two flows with the same client messages render alike, whatever the
      server said. */
  lemma ServerMessagesIgnored(a: Flow, b: Flow, tokenize: bool, useSession: bool, parsers: BodyParsers)
    requires a.dstPort == b.dstPort && Clients(a.messages) == Clients(b.messages)
    ensures RenderFlow(a, tokenize, useSession, parsers) == RenderFlow(b, tokenize, useSession, parsers)
  {
    RenderCallsClients(a.messages, ClientCallFor(tokenize, parsers));
    RenderCallsClients(b.messages, ClientCallFor(tokenize, parsers));
  }

  /** Rendering one request alone and as the only message of a flow agree
      whenever either succeeds. */
  lemma SingleAgreesWithFlow(rawRequest: seq<byte>, m: Message, dstPort: int, tokenize: bool, useSession: bool, parsers: BodyParsers)
    requires IsClient(m) && m.data == rawRequest
    ensures RenderSingle(rawRequest, dstPort, tokenize, useSession, parsers).Ok? <==>
      RenderFlow(Flow(dstPort, [m]), tokenize, useSession, parsers).Ok?
    ensures RenderSingle(rawRequest, dstPort, tokenize, useSession, parsers).Ok? ==>
      RenderSingle(rawRequest, dstPort, tokenize, useSession, parsers).value.calls ==
      RenderFlow(Flow(dstPort, [m]), tokenize, useSession, parsers).value.calls
  {
    var callFor := ClientCallFor(tokenize, parsers);
    assert [m][..0] == [] && [m][..1] == [m];
    RenderCallsStep([m], 0, callFor);
    var decoded := Decode(rawRequest, tokenize, parsers);
    ClientCallOf(m, tokenize, parsers, decoded);
    if decoded.Ok? {
      CheckOrder(decoded.value);
    }
  }
}
