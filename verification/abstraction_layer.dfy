/**
  The facade: it owns one registry and one executor, registers providers and
  plugins one after another, executes single requests and fail-fast
  workflows, and offers a stub handshake and request translation for an
  MCP-style calling convention.

  The facade's state is its registry, threaded through the functions here.
 */
module AbstractionLayer {
  import opened Wrappers
  import opened Seqs
  import opened Text
  import opened JsValues
  import opened ServiceTypes
  import opened ServiceRegistry
  import opened ServiceExecutor

  /**
    The state after a batch registration and the error it stopped on, if any.
    Registrations that completed before the error stay in effect.
   */
  datatype Registration = Registration(registry: Registry, failure: Option<Thrown>)

  /** A plugin bundle. */
  datatype Plugin = Plugin(providers: seq<Provider>)

  /** The ids of a batch of providers. */
  ghost function IdsOf(ps: seq<Provider>): set<string> {
    set p | p in ps :: p.id
  }

  /**
    `registerProviders`: register each provider in order, awaiting each; the
    first error stops the batch and propagates.
   */
  function RegisterProviders(reg: Registry, ps: seq<Provider>): (out: Registration)
    ensures reg.providers.entries.Keys <= out.registry.providers.entries.Keys
    ensures reg.capabilities.entries.Keys <= out.registry.capabilities.entries.Keys
    ensures out.registry.providers.entries.Keys <= reg.providers.entries.Keys + IdsOf(ps)
    ensures out.failure.None? ==> IdsOf(ps) <= out.registry.providers.entries.Keys
    decreases |ps|
  {
    if |ps| == 0 then Registration(reg, None)
    else
      assert IdsOf(ps) == {ps[0].id} + IdsOf(ps[1..]) by {
        assert ps == [ps[0]] + ps[1..];
      }
      match RegisterProvider(reg, ps[0])
      case Failure(e) => Registration(reg, Some(e))
      case Success(next) => RegisterProviders(next, ps[1..])
  }

  /** Batch registration keeps the registry well-formed and every listed capability indexed. */
  lemma {:induction false} RegisterProvidersInvariant(reg: Registry, ps: seq<Provider>)
    requires Valid(reg) && Indexed(reg)
    ensures Valid(RegisterProviders(reg, ps).registry) && Indexed(RegisterProviders(reg, ps).registry)
    decreases |ps|
  {
    if |ps| > 0 {
      match RegisterProvider(reg, ps[0])
      case Failure(e) =>
      case Success(next) => RegisterProvidersInvariant(next, ps[1..]);
    }
  }

  /** `registerProvider` on the facade: a batch of one. */
  function RegisterOne(reg: Registry, p: Provider): (out: Registration)
    ensures out == RegisterProviders(reg, [p])
    ensures out.failure.Some? ==> out.registry == reg
    ensures out.failure.None? ==> RegisterProvider(reg, p) == Success(out.registry)
  {
    match RegisterProvider(reg, p)
    case Failure(e) => Registration(reg, Some(e))
    case Success(next) => Registration(next, None)
  }

  /** `registerPlugin`: exactly `registerProviders` on the plugin's providers. */
  function RegisterPlugin(reg: Registry, plugin: Plugin): (out: Registration)
    ensures out == RegisterProviders(reg, plugin.providers)
  {
    RegisterProviders(reg, plugin.providers)
  }

  /**
    Registering a batch is a left fold: the batch `a + b` registers `a`, then,
    unless `a` stopped on an error, `b` from where `a` left off.
   */
  lemma {:induction false} RegisterProvidersAppend(reg: Registry, a: seq<Provider>, b: seq<Provider>)
    ensures RegisterProviders(reg, a + b) ==
              var first := RegisterProviders(reg, a);
              if first.failure.Some? then first else RegisterProviders(first.registry, b)
    decreases |a|
  {
    if |a| == 0 {
      assert a + b == b;
    } else {
      assert (a + b)[1..] == a[1..] + b;
      match RegisterProvider(reg, a[0])
      case Failure(e) =>
      case Success(next) => RegisterProvidersAppend(next, a[1..], b);
    }
  }

  /**
    A failed batch stopped at provider `k`: everything before `k` was
    registered without error, the registry is exactly what that prefix
    produced, and provider `k`'s own registration raised the reported error.
   */
  lemma {:induction false} FailureStopsBatch(reg: Registry, ps: seq<Provider>) returns (k: nat)
    requires RegisterProviders(reg, ps).failure.Some?
    ensures k < |ps|
    ensures RegisterProviders(reg, ps[..k]) == Registration(RegisterProviders(reg, ps).registry, None)
    ensures RegisterProvider(RegisterProviders(reg, ps).registry, ps[k])
              == Failure(RegisterProviders(reg, ps).failure.value)
    decreases |ps|
  {
    var out := RegisterProviders(reg, ps);
    match RegisterProvider(reg, ps[0])
    case Failure(e) =>
      k := 0;
      assert ps[..0] == [];
    case Success(next) =>
      assert RegisterProviders(next, ps[1..]) == out;
      var j := FailureStopsBatch(next, ps[1..]);
      k := j + 1;
      assert ps[..k][1..] == ps[1..][..j];
      assert ps[..k][0] == ps[0];
      assert ps[k] == ps[1..][j];
  }

  /** An id no batch has registered, and that was not there before, is still not found. */
  lemma UnregisteredIdNotFound(reg: Registry, ps: seq<Provider>, id: string)
    requires id !in reg.providers.entries
    requires forall i | 0 <= i < |ps| :: ps[i].id != id
    ensures GetProvider(RegisterProviders(reg, ps).registry, id).None?
  {
  }

  /** A batch of two is one registration after the other. */
  lemma RegisterTwo(reg: Registry, p1: Provider, p2: Provider)
    ensures RegisterProviders(reg, [p1, p2]).failure.None? <==>
              RegisterProvider(reg, p1).Success? && RegisterProvider(RegisterProvider(reg, p1).value, p2).Success?
    ensures RegisterProviders(reg, [p1, p2]).failure.None? ==>
              RegisterProviders(reg, [p1, p2]).registry == RegisterProvider(RegisterProvider(reg, p1).value, p2).value
  {
    assert [p1, p2][1..] == [p2];
    assert [p2][1..] == [];
    match RegisterProvider(reg, p1)
    case Failure(e) =>
    case Success(mid) =>
      assert RegisterProviders(reg, [p1, p2]) == RegisterProviders(mid, [p2]);
      match RegisterProvider(mid, p2)
      case Failure(e) =>
        assert RegisterProviders(mid, [p2]) == Registration(mid, Some(e));
      case Success(last) =>
        assert RegisterProviders(mid, [p2]) == RegisterProviders(last, []);
  }

  /** One registration after another under the same id: the second provider replaces the first, its keys stay. */
  lemma ReRegisterKeepsKeys(reg: Registry, p1: Provider, p2: Provider, c: Capability)
    requires p1.id == p2.id
    requires RegisterProvider(reg, p1).Success?
    requires RegisterProvider(RegisterProvider(reg, p1).value, p2).Success?
    requires Expand(p1).Success? && c in Expand(p1).value
    ensures Expand(p2).Success?
    ensures RegisterProvider(RegisterProvider(reg, p1).value, p2).value.providers.entries[p2.id].capabilities
              == Expand(p2).value
    ensures CapabilityKey(p1.id, c.id) in RegisterProvider(RegisterProvider(reg, p1).value, p2).value.capabilities.entries
  {
    var mid := RegisterProvider(reg, p1).value;
    assert CapabilityKey(p1.id, c.id) in KeysOf(p1.id, Expand(p1).value);
  }

  /**
    Re-registering a provider id replaces the provider, yet the capability keys
    of the old registration that the new one does not list still resolve.
   */
  lemma StaleCapabilityKeysSurvive(reg: Registry, p1: Provider, p2: Provider, c: Capability)
    requires p1.id == p2.id
    requires RegisterProviders(reg, [p1, p2]).failure.None?
    requires Expand(p1).Success? && c in Expand(p1).value
    ensures Expand(p2).Success? && GetProvider(RegisterProviders(reg, [p1, p2]).registry, p2.id).Some?
    ensures GetProvider(RegisterProviders(reg, [p1, p2]).registry, p2.id).value.capabilities == Expand(p2).value
    ensures GetCapability(RegisterProviders(reg, [p1, p2]).registry, p1.id, c.id).Some?
  {
    RegisterTwo(reg, p1, p2);
    var last := RegisterProvider(RegisterProvider(reg, p1).value, p2).value;
    ReRegisterKeepsKeys(reg, p1, p2, c);
  }

  /** A provider without a discovery hook, with one capability. */
  function MockProvider(id: string, capabilityId: string): Provider {
    Provider(id, "Mock Service", None,
             [Capability(capabilityId, "Mock Capability", "A mock capability", JObj(map[]), JObj(map[]), "1.0.0")],
             None)
  }

  /** Registering a provider without a discovery hook and with one capability adds exactly that capability. */
  lemma RegisterSingle(reg: Registry, p: Provider)
    requires p.discover.None? && |p.capabilities| == 1
    ensures RegisterProvider(reg, p).Success?
    ensures RegisterProvider(reg, p).value.providers.entries == reg.providers.entries[p.id := p]
    ensures RegisterProvider(reg, p).value.capabilities.entries
              == reg.capabilities.entries[CapabilityKey(p.id, p.capabilities[0].id) := p.capabilities[0]]
    ensures Valid(reg) ==> Valid(RegisterProvider(reg, p).value)
  {
    assert Expand(p) == Success(p.capabilities);
    assert p.(capabilities := p.capabilities) == p;
    assert LastOfId(p.capabilities, 0);
    assert KeysOf(p.id, p.capabilities) == {CapabilityKey(p.id, p.capabilities[0].id)};
  }

  /** The test's scenario: one mock provider gives exactly one capability, `mock_cap`. */
  lemma MockPluginListsOneCapability()
    ensures var reg := RegisterPlugin(New(), Plugin([MockProvider("mock", "mock_cap")])).registry;
            && |GetAllCapabilities(reg)| == 1
            && GetAllCapabilities(reg)[0].id == "mock_cap"
  {
    var p := MockProvider("mock", "mock_cap");
    RegisterSingle(New(), p);
    var r1 := RegisterProvider(New(), p).value;
    assert RegisterOne(New(), p).registry == r1;
    assert r1.capabilities.entries == map[CapabilityKey("mock", "mock_cap") := p.capabilities[0]];
  }

  /** `execute` on the facade: the executor's `execute`. */
  function ExecuteRequest(reg: Registry, gbif: GbifSearch, req: Request, t0: int, t1: int): (r: Response)
    ensures r == Execute(reg, gbif, req, t0, t1)
  {
    Execute(reg, gbif, req, t0, t1)
  }

  /**
    Without patching the executor, a mock provider such as the test's `mock`
    can never succeed: any id other than the two built-in ones reaches the
    dispatcher and is reported as unknown.
   */
  lemma MockProviderNeverSucceeds(id: string, capabilityId: string, gbif: GbifSearch, params: Json, t0: int, t1: int)
    requires id != "gbif" && id != "openai"
    ensures var reg := RegisterPlugin(New(), Plugin([MockProvider(id, capabilityId)])).registry;
            && !Execute(reg, gbif, Request(id, Some(capabilityId), params, None), t0, t1).success
            && Execute(reg, gbif, Request(id, Some(capabilityId), params, None), t0, t1).error
                 == Some("Unknown service provider: " + id)
  {
    var p := MockProvider(id, capabilityId);
    RegisterSingle(New(), p);
    var reg := RegisterProvider(New(), p).value;
    assert RegisterOne(New(), p).registry == reg;
    UnknownProviderFailsAtDispatch(reg, gbif, Request(id, Some(capabilityId), params, None), t0, t1);
  }

  /** An executor as the workflow sees it: step index and request in, response out. */
  type StepExecutor = (nat, Request) -> Response

  /** The workflow loop from step `i` on. */
  function RunFrom(requests: seq<Request>, exec: StepExecutor, i: nat): (out: seq<Response>)
    requires i <= |requests|
    ensures |out| <= |requests| - i
    ensures forall k | 0 <= k < |out| :: out[k] == exec(i + k, requests[i + k])
    ensures forall k | 0 <= k < |out| - 1 :: out[k].success
    ensures |out| < |requests| - i ==> |out| > 0 && !out[|out| - 1].success
    ensures (forall k | i <= k < |requests| :: exec(k, requests[k]).success) ==> |out| == |requests| - i
    decreases |requests| - i
  {
    if i == |requests| then []
    else
      var res := exec(i, requests[i]);
      if res.success then [res] + RunFrom(requests, exec, i + 1) else [res]
  }

  /**
    `runWorkflow`: execute the requests one at a time, in order, stopping right
    after the first failure. The output is a prefix of the per-request
    responses; all but its last element succeeded, and it is cut short only by
    a failure.
   */
  function RunWorkflow(requests: seq<Request>, exec: StepExecutor): (out: seq<Response>)
    ensures |out| <= |requests|
    ensures forall k | 0 <= k < |out| :: out[k] == exec(k, requests[k])
    ensures forall k | 0 <= k < |out| - 1 :: out[k].success
    ensures |out| < |requests| ==> |out| > 0 && !out[|out| - 1].success
    ensures (forall k | 0 <= k < |requests| :: exec(k, requests[k]).success) ==> |out| == |requests|
    ensures requests == [] ==> out == []
  {
    RunFrom(requests, exec, 0)
  }

  /** The first failing step is the last one run. */
  lemma WorkflowStopsAtFirstFailure(requests: seq<Request>, exec: StepExecutor, k: nat)
    requires k < |requests|
    requires forall j | 0 <= j < k :: exec(j, requests[j]).success
    requires !exec(k, requests[k]).success
    ensures |RunWorkflow(requests, exec)| == k + 1
    ensures RunWorkflow(requests, exec)[k] == exec(k, requests[k])
  {
  }

  lemma {:induction false} RunFromIgnoresLaterSteps(requests: seq<Request>, more: seq<Request>, exec: StepExecutor, i: nat, n: nat)
    requires i <= n <= |requests|
    requires n == i + |RunFrom(requests, exec, i)|
    requires n > i && !RunFrom(requests, exec, i)[n - i - 1].success
    ensures RunFrom(requests[..n] + more, exec, i) == RunFrom(requests, exec, i)
    decreases n - i
  {
    var longer := requests[..n] + more;
    assert longer[i] == requests[i];
    if exec(i, requests[i]).success {
      RunFromIgnoresLaterSteps(requests, more, exec, i + 1, n);
    }
  }

  /**
    Requests after the first failure are never executed: whatever follows the
    failing request, the workflow's output is the same.
   */
  lemma LaterRequestsNeverRun(requests: seq<Request>, more: seq<Request>, exec: StepExecutor)
    requires |RunWorkflow(requests, exec)| > 0
    requires !RunWorkflow(requests, exec)[|RunWorkflow(requests, exec)| - 1].success
    ensures var n := |RunWorkflow(requests, exec)|;
            RunWorkflow(requests[..n] + more, exec) == RunWorkflow(requests, exec)
  {
    RunFromIgnoresLaterSteps(requests, more, exec, 0, |RunWorkflow(requests, exec)|);
  }

  /** The facade's `execute` as a workflow step: step `i` reads the clock at ticks `2i` and `2i + 1`. */
  function ClockedExecutor(reg: Registry, gbif: GbifSearch, now: nat -> int): StepExecutor {
    (i: nat, r: Request) => ExecuteRequest(reg, gbif, r, now(2 * i), now(2 * i + 1))
  }

  /** `runWorkflow` over the real executor and an abstract clock. */
  function Workflow(reg: Registry, gbif: GbifSearch, now: nat -> int, requests: seq<Request>): seq<Response> {
    RunWorkflow(requests, ClockedExecutor(reg, gbif, now))
  }

  /** With a monotone clock every step of a workflow reports a non-negative execution time. */
  lemma WorkflowTimesNonNegative(reg: Registry, gbif: GbifSearch, now: nat -> int, requests: seq<Request>)
    requires forall a: nat, b: nat | a <= b :: now(a) <= now(b)
    ensures forall k | 0 <= k < |Workflow(reg, gbif, now, requests)| ::
              && Workflow(reg, gbif, now, requests)[k].metadata.Some?
              && Workflow(reg, gbif, now, requests)[k].metadata.value.executionTime >= 0
  {
    var exec := ClockedExecutor(reg, gbif, now);
    var out := RunWorkflow(requests, exec);
    forall k | 0 <= k < |out|
      ensures out[k].metadata.Some? && out[k].metadata.value.executionTime >= 0
    {
      assert out[k] == exec(k, requests[k]);
      assert now(2 * k) <= now(2 * k + 1);
      ExecutionTimeNonNegative(reg, gbif, requests[k], now(2 * k), now(2 * k + 1));
    }
  }

  /** The test's patched executor: a request for capability `fail` fails, any other succeeds with "ok". */
  function PatchedExecutor(i: nat, r: Request): Response {
    if r.capabilityId == Some("fail") then Response(false, None, Some("fail"), None)
    else Response(true, Some(JStr("ok")), None, None)
  }

  /** The test's workflow `[ok, fail, ok]` yields exactly two responses, the second a failure. */
  lemma PatchedWorkflowStopsAtFail()
    ensures var reqs := [Request("mock", Some("mock_cap"), JObj(map[]), None),
                         Request("mock", Some("fail"), JObj(map[]), None),
                         Request("mock", Some("mock_cap"), JObj(map[]), None)];
            && |RunWorkflow(reqs, PatchedExecutor)| == 2
            && !RunWorkflow(reqs, PatchedExecutor)[1].success
  {
    var reqs := [Request("mock", Some("mock_cap"), JObj(map[]), None),
                 Request("mock", Some("fail"), JObj(map[]), None),
                 Request("mock", Some("mock_cap"), JObj(map[]), None)];
    WorkflowStopsAtFirstFailure(reqs, PatchedExecutor, 1);
  }

  datatype ServerInfo = ServerInfo(name: string, version: string)

  datatype Handshake = Handshake(protocolVersion: string, capabilities: seq<Capability>, serverInfo: ServerInfo)

  /** `handleMCPHandshake`: fixed protocol and server identity, the current capability list; the input is ignored. */
  function HandleMcpHandshake(reg: Registry, request: Json): (h: Handshake)
    ensures h.protocolVersion == "1.0.0"
    ensures h.serverInfo == ServerInfo("Faces of Plants Service Layer", "1.0.0")
    ensures Valid(reg) ==> |h.capabilities| == |reg.capabilities.entries|
    ensures h.capabilities == GetAllCapabilities(reg)
  {
    Handshake("1.0.0", GetAllCapabilities(reg), ServerInfo("Faces of Plants Service Layer", "1.0.0"))
  }

  /** An MCP-style call: a `service/capability` method name, parameters, an id and a context. */
  datatype McpRequest = McpRequest(methodName: string, params: Json, id: Option<string>, context: Option<Json>)

  /**
    The first two `/`-separated segments of a method name: without a `/` the
    one segment is the whole name; otherwise the name starts with the first
    two joined by `/`, followed by nothing or by a further `/`.
   */
  lemma MethodSegments(s: string)
    ensures |Split(s, '/')| == 1 ==> Split(s, '/')[0] == s
    ensures |Split(s, '/')| > 1 ==>
              var prefix := Split(s, '/')[0] + "/" + Split(s, '/')[1];
              && |prefix| <= |s|
              && s[..|prefix|] == prefix
              && (|prefix| == |s| || s[|prefix|] == '/')
  {
    var parts := Split(s, '/');
    JoinSplit(s, '/');
    if |parts| > 1 {
      var prefix := parts[0] + "/" + parts[1];
      var tail := if |parts| > 2 then "/" + Join(parts[2..], '/') else "";
      assert parts[1..][1..] == parts[2..];
      if |parts| == 2 {
        assert Join(parts[1..], '/') == parts[1];
      }
      assert s == prefix + tail;
      assert s[..|prefix|] == prefix;
    }
  }

  /**
    `convertMCPRequest`: segment 0 of `methodName.split('/')` names the service and
    segment 1, if any, the capability; further segments are dropped.
   */
  function ConvertMcpRequest(m: McpRequest): (r: Request)
    ensures '/' !in r.serviceId
    ensures r.capabilityId.None? <==> '/' !in m.methodName
    ensures r.capabilityId.None? ==> r.serviceId == m.methodName
    ensures r.capabilityId.Some? ==>
              && '/' !in r.capabilityId.value
              && var prefix := r.serviceId + "/" + r.capabilityId.value;
              && |prefix| <= |m.methodName|
              && m.methodName[..|prefix|] == prefix
              && (|prefix| == |m.methodName| || m.methodName[|prefix|] == '/')
    ensures r.parameters == m.params
    ensures r.metadata == Some(RequestMetadata(m.id, None, m.context))
  {
    var parts := Split(m.methodName, '/');
    MethodSegments(m.methodName);
    var capabilityId := if |parts| > 1 then Some(parts[1]) else None;
    Request(parts[0], capabilityId, m.params, Some(RequestMetadata(m.id, None, m.context)))
  }

  /** A method built as `service/capability` from slash-free names converts back to exactly those names. */
  lemma McpMethodRoundTrip(service: string, capability: string, params: Json, id: Option<string>, context: Option<Json>)
    requires '/' !in service && '/' !in capability
    ensures ConvertMcpRequest(McpRequest(service + "/" + capability, params, id, context)).serviceId == service
    ensures ConvertMcpRequest(McpRequest(service + "/" + capability, params, id, context)).capabilityId == Some(capability)
  {
    SplitJoin([service, capability], '/');
    assert Join([service, capability], '/') == service + "/" + capability by {
      assert [service, capability][1..] == [capability];
    }
  }

  /**
    A method name without `/` leaves the capability undefined, which the
    executor looks up as the literal text "undefined" and, absent such a
    capability, reports as "Capability not found: undefined".
   */
  lemma McpWithoutSlashMissesCapability(reg: Registry, gbif: GbifSearch, m: McpRequest, t0: int, t1: int)
    requires '/' !in m.methodName
    requires GetProvider(reg, m.methodName).Some?
    requires GetCapability(reg, m.methodName, "undefined").None?
    ensures Execute(reg, gbif, ConvertMcpRequest(m), t0, t1).error == Some("Capability not found: undefined")
  {
    var req := ConvertMcpRequest(m);
    assert req.serviceId == m.methodName && Interpolated(req.capabilityId) == "undefined";
    assert "Capability not found: " + "undefined" == "Capability not found: undefined";
  }

  /** An MCP call without an id is answered with request id "unknown". */
  lemma McpWithoutIdEchoesUnknown(reg: Registry, gbif: GbifSearch, m: McpRequest, t0: int, t1: int)
    requires m.id.None?
    ensures Execute(reg, gbif, ConvertMcpRequest(m), t0, t1).metadata.value.requestId == "unknown"
  {
  }
}
