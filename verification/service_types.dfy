/**
  The service-integration records shared by the registry, the executor and the
  facade: capabilities, providers, requests and the response envelope.
 */
module ServiceTypes {
  import opened Wrappers
  import opened JsValues

  /** One invocable, versioned operation of a provider; the schemas are carried, never checked. */
  datatype Capability = Capability(
    id: string,
    name: string,
    description: string,
    inputSchema: Json,
    outputSchema: Json,
    version: string)

  /** The optional discovery hook: it yields extra capabilities or throws. */
  type DiscoverHook = () -> Result<seq<Capability>, Thrown>

  /** A named source of capabilities, with its optional discovery hook. */
  datatype Provider = Provider(
    id: string,
    name: string,
    baseUrl: Option<string>,
    capabilities: seq<Capability>,
    discover: Option<DiscoverHook>)

  /** Caller-supplied request metadata; `requestId` may be missing when it came from the protocol bridge. */
  datatype RequestMetadata = RequestMetadata(
    requestId: Option<string>,
    userId: Option<string>,
    context: Option<Json>)

  /**
    One invocation. `capabilityId` is undefined when the protocol bridge found
    no `/` in the method name.
   */
  datatype Request = Request(
    serviceId: string,
    capabilityId: Option<string>,
    parameters: Json,
    metadata: Option<RequestMetadata>)

  datatype ResponseMetadata = ResponseMetadata(
    requestId: string,
    executionTime: int,
    serviceVersion: string)

  /** The uniform response envelope. */
  datatype Response = Response(
    success: bool,
    data: Option<Json>,
    error: Option<string>,
    metadata: Option<ResponseMetadata>)
}
