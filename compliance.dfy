/**
  The MCP compliance runner that exercises the proxy: five JSON-RPC requests sent in a
  fixed order, each response classified as pass or fail.

  JSON and HTTP are abstracted: a response is the pair of optional top-level keys
  `"result"` and `"error"` (with the few fields the runner reads), and the proxy is a
  `transport` function from request to response.  Since the five requests of a run are
  pairwise distinct (`RequestsDistinct`), a function can answer each one independently.
*/
module Compliance {
  import opened Wrappers

  // ---------------------------------------------------------------------------
  // Messages
  // ---------------------------------------------------------------------------

  /** An entry of `result.tools`. */
  datatype Tool = Tool(name: string, description: Option<string>)

  /** The fields of a `"result"` object that the runner reads; each may be absent. */
  datatype ResultObject = ResultObject(sessionId: Option<string>, tools: Option<seq<Tool>>, text: Option<string>)

  /** A JSON-RPC error object; the runner reads only `code`. */
  datatype ErrorObject = ErrorObject(code: Option<int>, message: Option<string>)

  /** A decoded response: which of the keys `"result"` and `"error"` are present, and their values. */
  datatype Response = Response(result: Option<ResultObject>, error: Option<ErrorObject>)

  /** The `params` member of the requests the runner sends. */
  datatype Params =
    | Empty
    | InitializeParams(protocolVersion: string, clientName: string, clientVersion: string,
                       protocolVersions: seq<string>)
    | ToolCallParams(tool: string, message: string)

  /** A JSON-RPC 2.0 request posted to the proxy, with its HTTP headers. */
  datatype Request = Request(id: int, methodName: string, params: Params, headers: map<string, string>)

  const ProtocolVersion: string := "2025-03-26"
  const EchoMessage: string := "Hello from Shadowcat compliance test!"
  const ContentType: string := "Content-Type"
  const SessionHeader: string := "Mcp-Session-Id"

  /**
    The headers the runner passes with a request; the HTTP client adds its own defaults
    on the wire. The session header is passed as `session_id`, which is `None` when the
    initialize result had no `sessionId`; the HTTP client drops a header whose value is `None`.
  */
  function Headers(session: Option<string>): (h: map<string, string>)
    ensures ContentType in h && h[ContentType] == "application/json"
    ensures SessionHeader in h <==> session.Some?
    ensures session.Some? ==> h[SessionHeader] == session.value
    ensures h.Keys <= {ContentType, SessionHeader}
  {
    match session
    case None => map[ContentType := "application/json"]
    case Some(id) => map[ContentType := "application/json", SessionHeader := id]
  }

  /** `test_initialize`'s request: id 1, no session header. */
  function InitializeRequest(): (r: Request)
    ensures r.id == 1 && r.methodName == "initialize"
    ensures SessionHeader !in r.headers
  {
    Request(1, "initialize",
            InitializeParams(ProtocolVersion, "compliance-test", "1.0", [ProtocolVersion]),
            Headers(None))
  }

  // ---------------------------------------------------------------------------
  // Steps and their classification
  // ---------------------------------------------------------------------------

  /** The steps that follow a successful initialize, in the order `main` runs them. */
  datatype Step = ToolsList | ToolCall | Ping | ErrorHandling

  const LaterSteps: seq<Step> := [ToolsList, ToolCall, Ping, ErrorHandling]

  /** What a step returns: the data of a pass, or a failure with the response's `error` if any. */
  datatype Outcome =
    | Initialized(sessionId: Option<string>)
    | ToolsListed(tools: seq<Tool>)
    | ToolCalled(text: string)
    | Pinged
    | ErrorReturned(code: Option<int>)
    | Failed(error: Option<ErrorObject>)
    | NoErrorReturned

  /** `status == "pass"`. */
  predicate Passed(o: Outcome) {
    !o.Failed? && !o.NoErrorReturned?
  }

  /** The request a later step sends under the captured session id. */
  function StepRequest(step: Step, session: Option<string>): (r: Request)
    ensures r.headers == Headers(session)
  {
    match step
    case ToolsList => Request(2, "tools/list", Empty, Headers(session))
    case ToolCall => Request(3, "tools/call", ToolCallParams("echo", EchoMessage), Headers(session))
    case Ping => Request(4, "ping", Empty, Headers(session))
    case ErrorHandling => Request(999, "invalid_method", Empty, Headers(session))
  }

  /** `test_initialize`: pass iff `"result"` is present, capturing `result.get("sessionId")`. */
  function ClassifyInitialize(resp: Response): (o: Outcome)
    ensures Passed(o) <==> resp.result.Some?
    ensures resp.result.Some? ==> o == Initialized(resp.result.value.sessionId)
    ensures resp.result.None? ==> o == Failed(resp.error)
  {
    match resp.result
    case Some(res) => Initialized(res.sessionId)
    case None => Failed(resp.error)
  }

  /**
    The classification of a later step's response. `tools/list`, `tools/call` and
    `ping` pass iff `"result"` is present; the error-handling step passes iff
    `"error"` is present.
  */
  function Classify(step: Step, resp: Response): Outcome {
    match step
    case ToolsList =>
      (match resp.result
       case Some(res) => ToolsListed(res.tools.GetOr([]))
       case None => Failed(resp.error))
    case ToolCall =>
      (match resp.result
       case Some(res) => ToolCalled(res.text.GetOr(""))
       case None => Failed(resp.error))
    case Ping =>
      (match resp.result
       case Some(_) => Pinged
       case None => Failed(resp.error))
    case ErrorHandling =>
      (match resp.error
       case Some(err) => ErrorReturned(err.code)
       case None => NoErrorReturned)
  }

  // ---------------------------------------------------------------------------
  // The run
  // ---------------------------------------------------------------------------

  /** The session id a run threads into its later requests. */
  function SessionOf(init: Outcome): Option<string>
    requires init.Initialized?
  {
    init.sessionId
  }

  /**
    `main`: initialize, stop unless it passed, then run the four later steps in order
    under the captured session id. Returns each step's outcome and every request sent.
  */
  method RunCompliance(transport: Request -> Response) returns (outcomes: seq<Outcome>, sent: seq<Request>)
    ensures |outcomes| == |sent| && 1 <= |sent|
    ensures sent[0] == InitializeRequest()
    ensures outcomes[0] == ClassifyInitialize(transport(sent[0]))
    ensures !Passed(outcomes[0]) <==> |sent| == 1
    ensures Passed(outcomes[0]) ==>
      && |sent| == 1 + |LaterSteps|
      && forall i :: 0 <= i < |LaterSteps| ==>
           && sent[i + 1] == StepRequest(LaterSteps[i], SessionOf(outcomes[0]))
           && outcomes[i + 1] == Classify(LaterSteps[i], transport(sent[i + 1]))
    ensures forall i, j :: 0 <= i < j < |sent| ==> sent[i].id != sent[j].id
    ensures SessionHeader !in sent[0].headers
    ensures Passed(outcomes[0]) ==> forall i :: 1 <= i < |sent| ==>
      var sid := transport(sent[0]).result.value.sessionId;
      && (SessionHeader in sent[i].headers <==> sid.Some?)
      && (sid.Some? ==> sent[i].headers[SessionHeader] == sid.value)
  {
    var init := InitializeRequest();
    var initOutcome := ClassifyInitialize(transport(init));
    outcomes, sent := [initOutcome], [init];
    if !Passed(initOutcome) {
      return;
    }
    var session := initOutcome.sessionId;

    var toolsList := StepRequest(ToolsList, session);
    var toolsListed := Classify(ToolsList, transport(toolsList));

    var toolCall := StepRequest(ToolCall, session);
    var toolCalled := Classify(ToolCall, transport(toolCall));

    var ping := StepRequest(Ping, session);
    var pinged := Classify(Ping, transport(ping));

    var invalid := StepRequest(ErrorHandling, session);
    var errorReturned := Classify(ErrorHandling, transport(invalid));

    outcomes := outcomes + [toolsListed, toolCalled, pinged, errorReturned];
    sent := sent + [toolsList, toolCall, ping, invalid];
  }

  // ---------------------------------------------------------------------------
  // Properties
  // ---------------------------------------------------------------------------

  /** The ids of the later steps are 2, 3, 4 and 999, in order, with their methods. */
  lemma LaterStepIds(session: Option<string>)
    ensures seq(|LaterSteps|, i requires 0 <= i < |LaterSteps| => StepRequest(LaterSteps[i], session).id)
         == [2, 3, 4, 999]
    ensures seq(|LaterSteps|, i requires 0 <= i < |LaterSteps| => StepRequest(LaterSteps[i], session).methodName)
         == ["tools/list", "tools/call", "ping", "invalid_method"]
  {
  }

  /** The five requests of a run carry pairwise distinct ids, so each is sent exactly once. */
  lemma RequestsDistinct(session: Option<string>, i: nat, j: nat)
    requires i < |LaterSteps| && j < |LaterSteps| && i != j
    ensures StepRequest(LaterSteps[i], session).id != StepRequest(LaterSteps[j], session).id
    ensures StepRequest(LaterSteps[i], session).id != InitializeRequest().id
  {
  }

  /**
    In a run whose initialize passed, every later request carries the session header,
    equal to the `sessionId` of the initialize result; the initialize request carries none.
  */
  lemma SessionThreaded(transport: Request -> Response, outcomes: seq<Outcome>, sent: seq<Request>, i: nat)
    requires |outcomes| == |sent| == 1 + |LaterSteps|
    requires sent[0] == InitializeRequest() && outcomes[0] == ClassifyInitialize(transport(sent[0]))
    requires Passed(outcomes[0])
    requires forall k :: 0 <= k < |LaterSteps| ==> sent[k + 1] == StepRequest(LaterSteps[k], SessionOf(outcomes[0]))
    requires 1 <= i < |sent|
    ensures SessionHeader !in sent[0].headers
    ensures var sid := transport(sent[0]).result.value.sessionId;
      && (SessionHeader in sent[i].headers <==> sid.Some?)
      && (sid.Some? ==> sent[i].headers[SessionHeader] == sid.value)
  {
    assert sent[i] == StepRequest(LaterSteps[i - 1], SessionOf(outcomes[0]));
  }

  /** `tools/list`, `tools/call` and `ping` pass exactly when the response has a `"result"` key. */
  lemma PassIffResult(step: Step, resp: Response)
    requires step != ErrorHandling
    ensures Passed(Classify(step, resp)) <==> resp.result.Some?
    ensures !Passed(Classify(step, resp)) ==> Classify(step, resp) == Failed(resp.error)
  {
  }

  /** The error-handling step passes exactly when the response has an `"error"` key, reporting its code. */
  lemma ErrorStepPassIffError(resp: Response)
    ensures Passed(Classify(ErrorHandling, resp)) <==> resp.error.Some?
    ensures resp.error.Some? ==> Classify(ErrorHandling, resp) == ErrorReturned(resp.error.value.code)
  {
  }

  /**
    On a JSON-RPC response, which holds exactly one of `"result"` and `"error"`, the
    error-handling step passes exactly when each of the other steps would fail.
  */
  lemma ErrorStepIsInverse(step: Step, resp: Response)
    requires step != ErrorHandling
    requires resp.result.Some? != resp.error.Some?
    ensures Passed(Classify(ErrorHandling, resp)) <==> !Passed(Classify(step, resp))
  {
    PassIffResult(step, resp);
  }

  /** A result without `tools` lists no tools, and one without `text` echoes the empty string. */
  lemma MissingFieldDefaults(res: ResultObject, err: Option<ErrorObject>)
    ensures res.tools.None? ==> Classify(ToolsList, Response(Some(res), err)) == ToolsListed([])
    ensures res.text.None? ==> Classify(ToolCall, Response(Some(res), err)) == ToolCalled("")
    ensures res.tools.Some? ==> Classify(ToolsList, Response(Some(res), err)) == ToolsListed(res.tools.value)
    ensures res.text.Some? ==> Classify(ToolCall, Response(Some(res), err)) == ToolCalled(res.text.value)
  {
  }
}
