/**
  The request executor: resolve the provider, then the capability, dispatch on
  the hard-coded provider id, and wrap whatever happens in the response
  envelope. Nothing escapes `Execute`: every thrown value becomes a failure
  response.

  The GBIF occurrence search is an opaque backend (`gbif`), and the two
  `Date.now()` readings taken around the call are the parameters `t0` and `t1`.
 */
module ServiceExecutor {
  import opened Wrappers
  import opened JsValues
  import opened ServiceTypes
  import opened ServiceRegistry

  /** The GBIF occurrence search backend: it returns a result page or throws. */
  type GbifSearch = Json -> Result<Json, Thrown>

  /** The mock object the language-model handler returns. */
  function LlmMock(capabilityId: string, parameters: Json): Json {
    JObj(map["mock" := JStr("LLM result"), "capabilityId" := JStr(capabilityId), "parameters" := parameters])
  }

  /** `executeGBIFService`: only `species_search` is implemented. */
  function ExecuteGbifService(gbif: GbifSearch, capabilityId: string, parameters: Json): (r: Result<Json, Thrown>)
    ensures capabilityId == "species_search" ==> r == gbif(parameters)
    ensures capabilityId != "species_search" ==>
              r == Failure(ErrorObject("Unknown GBIF capability: " + capabilityId))
  {
    if capabilityId == "species_search" then gbif(parameters)
    else Failure(ErrorObject("Unknown GBIF capability: " + capabilityId))
  }

  /** `executeLLMService`: a stub that echoes its inputs and never fails. */
  function ExecuteLlmService(capabilityId: string, parameters: Json): (r: Result<Json, Thrown>)
    ensures r.Success?
    ensures r.value.JObj? && r.value.fields.Keys == {"mock", "capabilityId", "parameters"}
    ensures r.value.fields["mock"] == JStr("LLM result")
    ensures r.value.fields["capabilityId"] == JStr(capabilityId)
    ensures r.value.fields["parameters"] == parameters
  {
    Success(LlmMock(capabilityId, parameters))
  }

  /** `executeService`: the closed switch on the provider id. */
  function ExecuteService(gbif: GbifSearch, provider: Provider, capability: Capability, parameters: Json)
    : (r: Result<Json, Thrown>)
    ensures provider.id == "gbif" ==> r == ExecuteGbifService(gbif, capability.id, parameters)
    ensures provider.id == "openai" ==> r == ExecuteLlmService(capability.id, parameters)
    ensures provider.id != "gbif" && provider.id != "openai" ==>
              r == Failure(ErrorObject("Unknown service provider: " + provider.id))
  {
    match provider.id
    case "gbif" => ExecuteGbifService(gbif, capability.id, parameters)
    case "openai" => ExecuteLlmService(capability.id, parameters)
    case _ => Failure(ErrorObject("Unknown service provider: " + provider.id))
  }

  /** `request.metadata?.requestId || 'unknown'`: any falsy id, the empty string included, reads as unknown. */
  function EchoedRequestId(req: Request): (id: string)
    ensures id == "unknown" <==>
              req.metadata.None? || !Filled(req.metadata.value.requestId) || req.metadata.value.requestId == Some("unknown")
    ensures id != "unknown" ==> req.metadata.Some? && req.metadata.value.requestId == Some(id)
  {
    match req.metadata
    case Some(RequestMetadata(Some(rid), _, _)) => if rid != "" then rid else "unknown"
    case _ => "unknown"
  }

  /** The body of the `try`: both lookups, in order, then dispatch; yields the data and the capability version. */
  function Attempt(reg: Registry, gbif: GbifSearch, req: Request): (r: Result<(Json, string), Thrown>)
    ensures GetProvider(reg, req.serviceId).None? ==>
              r == Failure(ErrorObject("Service not found: " + req.serviceId))
    ensures GetProvider(reg, req.serviceId).Some? &&
            GetCapability(reg, req.serviceId, Interpolated(req.capabilityId)).None? ==>
              r == Failure(ErrorObject("Capability not found: " + Interpolated(req.capabilityId)))
    ensures GetProvider(reg, req.serviceId).Some? &&
            GetCapability(reg, req.serviceId, Interpolated(req.capabilityId)).Some? ==>
              var provider := GetProvider(reg, req.serviceId).value;
              var capability := GetCapability(reg, req.serviceId, Interpolated(req.capabilityId)).value;
              match ExecuteService(gbif, provider, capability, req.parameters)
              case Success(data) => r == Success((data, capability.version))
              case Failure(e) => r == Failure(e)
  {
    match GetProvider(reg, req.serviceId)
    case None => Failure(ErrorObject("Service not found: " + req.serviceId))
    case Some(provider) =>
      var capabilityId := Interpolated(req.capabilityId);
      match GetCapability(reg, req.serviceId, capabilityId)
      case None => Failure(ErrorObject("Capability not found: " + capabilityId))
      case Some(capability) =>
        match ExecuteService(gbif, provider, capability, req.parameters)
        case Success(data) => Success((data, capability.version))
        case Failure(e) => Failure(e)
  }

  /**
    `execute`: a total function (it cannot throw). A success carries the handler's
    data and the capability's version; every failure carries the thrown message
    (or "Unknown error") and the version "unknown". Both echo the request id and
    report `t1 - t0` as execution time.
   */
  function Execute(reg: Registry, gbif: GbifSearch, req: Request, t0: int, t1: int): (r: Response)
    ensures r.metadata.Some?
    ensures r.metadata.value.requestId == EchoedRequestId(req)
    ensures r.metadata.value.executionTime == t1 - t0
    ensures r.success <==>
              && GetProvider(reg, req.serviceId).Some?
              && GetCapability(reg, req.serviceId, Interpolated(req.capabilityId)).Some?
              && ExecuteService(gbif, GetProvider(reg, req.serviceId).value,
                                GetCapability(reg, req.serviceId, Interpolated(req.capabilityId)).value,
                                req.parameters).Success?
    ensures r.success ==>
              && r.error.None?
              && r.data == Some(ExecuteService(gbif, GetProvider(reg, req.serviceId).value,
                                               GetCapability(reg, req.serviceId, Interpolated(req.capabilityId)).value,
                                               req.parameters).value)
              && r.metadata.value.serviceVersion
                   == GetCapability(reg, req.serviceId, Interpolated(req.capabilityId)).value.version
    ensures !r.success ==> r.data.None? && r.error.Some? && r.metadata.value.serviceVersion == "unknown"
    ensures GetProvider(reg, req.serviceId).None? ==>
              r.error == Some("Service not found: " + req.serviceId)
    ensures GetProvider(reg, req.serviceId).Some? &&
            GetCapability(reg, req.serviceId, Interpolated(req.capabilityId)).None? ==>
              r.error == Some("Capability not found: " + Interpolated(req.capabilityId))
    ensures Attempt(reg, gbif, req).Failure? ==>
              r.error == Some(MessageOr(Attempt(reg, gbif, req).error, "Unknown error"))
  {
    var requestId := EchoedRequestId(req);
    match Attempt(reg, gbif, req)
    case Success((data, version)) =>
      Response(true, Some(data), None, Some(ResponseMetadata(requestId, t1 - t0, version)))
    case Failure(e) =>
      Response(false, None, Some(MessageOr(e, "Unknown error")), Some(ResponseMetadata(requestId, t1 - t0, "unknown")))
  }

  /** With a monotone clock the reported execution time is never negative. */
  lemma ExecutionTimeNonNegative(reg: Registry, gbif: GbifSearch, req: Request, t0: int, t1: int)
    requires t0 <= t1
    ensures Execute(reg, gbif, req, t0, t1).metadata.value.executionTime >= 0
  {
  }

  /**
    Dispatch is closed: a registered provider whose id is neither `gbif` nor
    `openai` fails with "Unknown service provider" even when its capability is
    registered too.
   */
  lemma UnknownProviderFailsAtDispatch(reg: Registry, gbif: GbifSearch, req: Request, t0: int, t1: int)
    requires Valid(reg)
    requires req.serviceId != "gbif" && req.serviceId != "openai"
    requires GetProvider(reg, req.serviceId).Some?
    requires GetCapability(reg, req.serviceId, Interpolated(req.capabilityId)).Some?
    ensures !Execute(reg, gbif, req, t0, t1).success
    ensures Execute(reg, gbif, req, t0, t1).error == Some("Unknown service provider: " + req.serviceId)
  {
    assert GetProvider(reg, req.serviceId).value.id == req.serviceId;
  }

  /** Only the two built-in providers can ever answer successfully; GBIF only for `species_search`. */
  lemma SuccessNeedsBuiltInProvider(reg: Registry, gbif: GbifSearch, req: Request, t0: int, t1: int)
    requires Valid(reg)
    requires Execute(reg, gbif, req, t0, t1).success
    ensures req.serviceId == "gbif" || req.serviceId == "openai"
    ensures req.serviceId == "gbif" ==>
              GetCapability(reg, req.serviceId, Interpolated(req.capabilityId)).value.id == "species_search"
  {
    assert GetProvider(reg, req.serviceId).value.id == req.serviceId;
  }

  /**
    The provider is looked up before the capability: an unregistered service id
    reports "Service not found" even when the composite key it forms with the
    capability id is indexed (which a colliding key makes possible).
   */
  lemma ServiceCheckedFirst(reg: Registry, gbif: GbifSearch, req: Request, t0: int, t1: int)
    requires GetProvider(reg, req.serviceId).None?
    requires GetCapability(reg, req.serviceId, Interpolated(req.capabilityId)).Some?
    ensures Execute(reg, gbif, req, t0, t1).error == Some("Service not found: " + req.serviceId)
  {
  }

  /** An `Error` the GBIF backend throws is reported with its own message. */
  lemma BackendErrorIsReported(reg: Registry, gbif: GbifSearch, req: Request, t0: int, t1: int, m: string)
    requires Valid(reg)
    requires req.serviceId == "gbif"
    requires GetProvider(reg, req.serviceId).Some?
    requires GetCapability(reg, req.serviceId, Interpolated(req.capabilityId)).Some?
    requires GetCapability(reg, req.serviceId, Interpolated(req.capabilityId)).value.id == "species_search"
    requires gbif(req.parameters) == Failure(ErrorObject(m))
    ensures !Execute(reg, gbif, req, t0, t1).success
    ensures Execute(reg, gbif, req, t0, t1).error == Some(m)
  {
    assert GetProvider(reg, req.serviceId).value.id == req.serviceId;
  }

  /** A registered GBIF capability other than `species_search` fails with "Unknown GBIF capability". */
  lemma UnknownGbifCapabilityReported(reg: Registry, gbif: GbifSearch, req: Request, t0: int, t1: int)
    requires Valid(reg)
    requires req.serviceId == "gbif"
    requires GetProvider(reg, req.serviceId).Some?
    requires GetCapability(reg, req.serviceId, Interpolated(req.capabilityId)).Some?
    requires GetCapability(reg, req.serviceId, Interpolated(req.capabilityId)).value.id != "species_search"
    ensures !Execute(reg, gbif, req, t0, t1).success
    ensures Execute(reg, gbif, req, t0, t1).error
              == Some("Unknown GBIF capability: " + GetCapability(reg, req.serviceId, Interpolated(req.capabilityId)).value.id)
  {
    assert GetProvider(reg, req.serviceId).value.id == req.serviceId;
  }

  /** A handler that throws something other than an `Error` yields the message "Unknown error". */
  lemma NonErrorThrowIsUnknownError(reg: Registry, gbif: GbifSearch, req: Request, t0: int, t1: int)
    requires GetProvider(reg, req.serviceId).Some?
    requires GetCapability(reg, req.serviceId, Interpolated(req.capabilityId)).Some?
    requires ExecuteService(gbif, GetProvider(reg, req.serviceId).value,
                            GetCapability(reg, req.serviceId, Interpolated(req.capabilityId)).value,
                            req.parameters).Failure?
    requires ExecuteService(gbif, GetProvider(reg, req.serviceId).value,
                            GetCapability(reg, req.serviceId, Interpolated(req.capabilityId)).value,
                            req.parameters).error.OtherValue?
    ensures Execute(reg, gbif, req, t0, t1).error == Some("Unknown error")
  {
  }
}
