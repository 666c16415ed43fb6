/** What the server does with one decoded request (src/server.rs, body of the session
    loop): two refusals, and the outcome of a service call under a timeout. */
module Dispatch {
  import opened Rpc
  import opened Routing

  /** The identity of a registered service object. */
  type Service = nat

  type Registry = map<string, Service>

  /** How a service call under the server's timeout can end. */
  datatype CallResult = Replied(bytes: Bytes) | Faulted(text: string) | TimedOut

  /** What each service may answer to a method and a payload. */
  type Behaviour = (Service, string, Bytes, CallResult) -> bool

  const TIMEOUT_TEXT := "Request timeout"

  function MalformedText(methodName: string): string {
    "Invalid method format. Expected 'service.method', got '" + methodName + "'"
  }

  function UnknownText(service: string): string {
    "Service not found: " + service
  }

  function ErrorResponse(id: u64, text: string): Response {
    Response(id, None, Some(text))
  }

  function ResultResponse(id: u64, result: CallResult): Response {
    match result
    case Replied(bytes) => Response(id, Some(bytes), None)
    case Faulted(text) => ErrorResponse(id, text)
    case TimedOut => ErrorResponse(id, TIMEOUT_TEXT)
  }

  /** The service a request reaches under a registry, if any. */
  function Target(registry: Registry, request: Request): Option<Service> {
    match Split(request.methodName)
    case Malformed => None
    case Routed(service, _) => if service in registry then Some(registry[service]) else None
  }

  /** The response to a request under a registry; `result` is the outcome of the service
      call and only matters when the request reaches a service. */
  function Respond(registry: Registry, request: Request, result: CallResult): Response {
    match Split(request.methodName)
    case Malformed => ErrorResponse(request.id, MalformedText(request.methodName))
    case Routed(service, _) =>
      if service in registry then ResultResponse(request.id, result)
      else ErrorResponse(request.id, UnknownText(service))
  }

  /** Whether `result` is something the reached service may do with this request. A
      timeout is always possible. */
  ghost predicate Allowed(behaviour: Behaviour, registry: Registry, request: Request, result: CallResult) {
    Target(registry, request).Some? ==>
      result.TimedOut? || behaviour(Target(registry, request).value, Split(request.methodName).MethodOr(""),
          request.payload, result)
  }

  /** `value` is something a caller of `method` with `payload` may be told under `registry`. */
  ghost predicate PossibleOutcome(behaviour: Behaviour, registry: Registry, request: Request, value: Outcome) {
    exists result: CallResult ::
      Allowed(behaviour, registry, request, result) && value == ValueOf(Respond(registry, request, result))
  }

  /** Every response carries the id of its request and exactly one of payload and error. */
  lemma RespondWellFormed(registry: Registry, request: Request, result: CallResult)
    ensures Respond(registry, request, result).id == request.id
    ensures Respond(registry, request, result).payload.Some? <==> Respond(registry, request, result).error.None?
  {
    if Split(request.methodName).Routed? {
    }
  }

  /** The response to request `id` that carries `bytes`, and means them to the caller. */
  predicate IsReply(response: Response, id: u64, bytes: Bytes) {
    && response.id == id && response.payload == Some(bytes) && response.error == None
    && ValueOf(response) == Answer(bytes)
  }

  /** The response to request `id` that carries the error `text`, and means it to the caller. */
  predicate IsFailure(response: Response, id: u64, text: string) {
    && response.id == id && response.payload == None && response.error == Some(text)
    && ValueOf(response) == RpcFailed(text)
  }

  /** What the server answers, field by field: the two refusals with their texts, a reply as
      the service gave it, a fault with the service's own text, and a timeout. */
  lemma RespondSays(registry: Registry, request: Request, result: CallResult)
    ensures var response := Respond(registry, request, result);
            match Split(request.methodName)
            case Malformed =>
              IsFailure(response, request.id,
                        "Invalid method format. Expected 'service.method', got '" + request.methodName + "'")
            case Routed(service, _) =>
              if service !in registry then IsFailure(response, request.id, "Service not found: " + service)
              else
                match result
                case Replied(bytes) => IsReply(response, request.id, bytes)
                case Faulted(text) => IsFailure(response, request.id, text)
                case TimedOut => IsFailure(response, request.id, "Request timeout")
  {
  }

  /** The caller gets bytes exactly when the request reached a service that replied with
      them, and then gets those bytes. */
  lemma AnswerIffReplied(registry: Registry, request: Request, result: CallResult)
    ensures ValueOf(Respond(registry, request, result)).Answer? <==> Target(registry, request).Some? && result.Replied?
    ensures Target(registry, request).Some? && result.Replied? ==>
              ValueOf(Respond(registry, request, result)) == Answer(result.bytes)
  {
    if Split(request.methodName).Routed? {
    }
  }

  /** Registering a service changes no response, for any request, exactly when its name
      holds a dot or was already taken. */
  lemma RegistrationInertIff(registry: Registry, name: string, service: Service)
    ensures (forall request: Request, result: CallResult ::
               Respond(registry[name := service], request, result) == Respond(registry, request, result))
            <==> '.' in name || name in registry
  {
    if '.' in name || name in registry {
      forall request: Request, result: CallResult
        ensures Respond(registry[name := service], request, result) == Respond(registry, request, result)
      {
        if Split(request.methodName).Routed? {
          SplitRestores(request.methodName);
        }
      }
    } else {
      FormatRoundTrip(name, "");
      var request := Request(0, FormatMethodName(name, ""), []);
      assert Respond(registry[name := service], request, Replied([])).payload == Some([]);
      assert Respond(registry, request, Replied([])).payload == None;
    }
  }

  // Registering services.

  type Registration = (string, Service)

  /** What `Server::register_service` makes of the services map, one after the other. */
  function AfterAll(services: Registry, registrations: seq<Registration>): Registry {
    if registrations == [] then services
    else
      var (name, service) := registrations[|registrations| - 1];
      AfterAll(services, registrations[..|registrations| - 1])[name := service]
  }

  /** The service last registered under `name`. */
  function LastRegistered(registrations: seq<Registration>, name: string): Option<Service> {
    if registrations == [] then None
    else
      var last := registrations[|registrations| - 1];
      if last.0 == name then Some(last.1) else LastRegistered(registrations[..|registrations| - 1], name)
  }

  lemma {:induction false} AfterAllConcat(services: Registry, first: seq<Registration>, second: seq<Registration>)
    ensures AfterAll(services, first + second) == AfterAll(AfterAll(services, first), second)
  {
    if second == [] {
      assert first + second == first;
    } else {
      assert (first + second)[..|first + second| - 1] == first + second[..|second| - 1];
      AfterAllConcat(services, first, second[..|second| - 1]);
    }
  }

  /** A lookup finds what was last registered under the name, or else what was there first. */
  lemma {:induction false} AfterAllFinds(services: Registry, registrations: seq<Registration>, name: string)
    ensures var after := AfterAll(services, registrations);
            match LastRegistered(registrations, name)
            case Some(service) => name in after && after[name] == service
            case None => (name in after <==> name in services) && (name in services ==> after[name] == services[name])
  {
    if registrations != [] {
      AfterAllFinds(services, registrations[..|registrations| - 1], name);
    }
  }
}
