/** The server's session loop (src/server.rs): receive, decode, route, call, respond, with
    early aborts, over a registry that other tasks change between its turns. */
module Session {
  import opened Rpc
  import opened Routing
  import opened Dispatch
  import opened Util

  /** What the transport yields next: a request, bytes that do not decode, or an error.
      The end of the sequence is the end of the stream. */
  datatype Incoming = Decodable(request: Request) | Undecodable | Broken

  datatype Ending = EndOfStream | ReceiveFailed | DecodeFailed | SendFailed

  /** How the `i`-th call ends, given the service and what it is asked. */
  type Oracle = (nat, Service, string, Bytes) -> CallResult

  class MessageStream {
    var inbound: seq<Incoming>
    var outbound: seq<Response>
    /** How many more responses the transport takes before writing fails. */
    var writable: nat

    constructor (inbound: seq<Incoming>, writable: nat)
      ensures this.inbound == inbound && this.outbound == [] && this.writable == writable
    {
      this.inbound, this.outbound, this.writable := inbound, [], writable;
    }

    method Receive() returns (item: Option<Incoming>)
      modifies this`inbound
      ensures item == if old(inbound) == [] then None else Some(old(inbound)[0])
      ensures inbound == if old(inbound) == [] then [] else old(inbound)[1..]
    {
      if inbound == [] {
        return None;
      }
      item := Some(inbound[0]);
      inbound := inbound[1..];
    }

    method Send(response: Response) returns (ok: bool)
      modifies this`outbound, this`writable
      ensures ok <==> old(writable) > 0
      ensures outbound == if ok then old(outbound) + [response] else old(outbound)
      ensures writable == if ok then old(writable) - 1 else old(writable)
    {
      ok := writable > 0;
      if ok {
        outbound := outbound + [response];
        writable := writable - 1;
      }
    }
  }

  class Server {
    var services: Registry

    constructor ()
      ensures services == map[]
    {
      services := map[];
    }

    method RegisterService(name: string, service: Service)
      modifies this
      ensures services == old(services)[name := service]
    {
      services := services[name := service];
    }

    /** The registrations other tasks make between two lookups of a session. */
    method RegisterAll(registrations: seq<Registration>)
      modifies this
      ensures services == AfterAll(old(services), registrations)
    {
      var i := 0;
      while i < |registrations|
        invariant i <= |registrations|
        invariant services == AfterAll(old(services), registrations[..i])
      {
        RegisterService(registrations[i].0, registrations[i].1);
        assert registrations[..i + 1][..i] == registrations[..i];
        i := i + 1;
      }
      assert registrations[..i] == registrations;
    }
  }

  function Flatten(arrivals: seq<seq<Registration>>): seq<Registration> {
    if arrivals == [] then [] else Flatten(arrivals[..|arrivals| - 1]) + arrivals[|arrivals| - 1]
  }

  /** The registry at lookup `i`, when `arrivals[i]` was registered since the one before. */
  function ServicesAt(services: Registry, arrivals: seq<seq<Registration>>, i: nat): Registry
    requires i < |arrivals|
  {
    AfterAll(services, Flatten(arrivals[..i + 1]))
  }

  /** The requests before the first item that is not one. */
  function Requests(inbound: seq<Incoming>): (requests: seq<Request>)
    ensures |requests| <= |inbound|
    ensures forall i | 0 <= i < |requests| :: inbound[i] == Decodable(requests[i])
    ensures |requests| < |inbound| ==> !inbound[|requests|].Decodable?
  {
    if inbound == [] || !inbound[0].Decodable? then []
    else [inbound[0].request] + Requests(inbound[1..])
  }

  /** The response to request number `i`. */
  function Answer(services: Registry, oracle: Oracle, i: nat, request: Request): Response {
    match Target(services, request)
    case None => Respond(services, request, TimedOut)
    case Some(service) =>
      Respond(services, request, oracle(i, service, Split(request.methodName).MethodOr(""), request.payload))
  }

  function Answers(services: Registry, arrivals: seq<seq<Registration>>, oracle: Oracle, requests: seq<Request>,
                   n: nat): (answers: seq<Response>)
    requires n <= |requests| && n <= |arrivals|
    ensures |answers| == n
    ensures forall i | 0 <= i < n :: answers[i] == Answer(ServicesAt(services, arrivals, i), oracle, i, requests[i])
  {
    seq(n, i requires 0 <= i < n => Answer(ServicesAt(services, arrivals, i), oracle, i, requests[i]))
  }

  lemma AnswersNext(services: Registry, arrivals: seq<seq<Registration>>, oracle: Oracle, requests: seq<Request>,
                    n: nat, sent: seq<Response>)
    requires n < |requests| && n < |arrivals|
    ensures sent + Answers(services, arrivals, oracle, requests, n + 1) ==
            sent + Answers(services, arrivals, oracle, requests, n)
            + [Answer(ServicesAt(services, arrivals, n), oracle, n, requests[n])]
  {
    assert Answers(services, arrivals, oracle, requests, n + 1) ==
           Answers(services, arrivals, oracle, requests, n)
           + [Answer(ServicesAt(services, arrivals, n), oracle, n, requests[n])];
  }

  /** The registry just before the registrations that precede lookup `k`. */
  function ServicesBefore(services: Registry, arrivals: seq<seq<Registration>>, k: nat): Registry
    requires k <= |arrivals|
  {
    AfterAll(services, Flatten(arrivals[..k]))
  }

  lemma ServicesNext(services: Registry, arrivals: seq<seq<Registration>>, k: nat)
    requires k < |arrivals|
    ensures AfterAll(ServicesBefore(services, arrivals, k), arrivals[k]) == ServicesAt(services, arrivals, k)
    ensures ServicesAt(services, arrivals, k) == ServicesBefore(services, arrivals, k + 1)
  {
    assert arrivals[..k + 1][..k] == arrivals[..k];
    AfterAllConcat(services, Flatten(arrivals[..k]), arrivals[k]);
  }

  /** Where the loop stands after `k` requests tells whether there is another. */
  lemma RequestsAt(inbound: seq<Incoming>, k: nat)
    requires k <= |Requests(inbound)| && k < |inbound|
    ensures inbound[k].Decodable? ==> k < |Requests(inbound)| && Requests(inbound)[k] == inbound[k].request
    ensures !inbound[k].Decodable? ==> k == |Requests(inbound)|
  {
  }

  /** How a session ends: by the first failed write, or else by what follows the requests. */
  function EndingOf(inbound: seq<Incoming>, writable: nat): Ending {
    var n := |Requests(inbound)|;
    if writable < n then SendFailed
    else if n == |inbound| then EndOfStream
    else if inbound[n].Broken? then ReceiveFailed
    else DecodeFailed
  }

  /** How many requests a session looks up: those it answers, and one more when the write
      of its answer fails. */
  function Lookups(inbound: seq<Incoming>, writable: nat): (n: nat)
    ensures n <= |inbound|
  {
    Min(|Requests(inbound)|, writable + 1)
  }

  /** Each way out of the loop is the ending the specification says. */
  lemma SessionEnds(inbound: seq<Incoming>, writable: nat, k: nat)
    requires k <= |Requests(inbound)| && k <= writable
    ensures if k == |inbound| then EndsAt(inbound, writable, k, k, EndOfStream)
            else if inbound[k].Broken? then EndsAt(inbound, writable, k, k, ReceiveFailed)
            else if inbound[k].Undecodable? then EndsAt(inbound, writable, k, k, DecodeFailed)
            else
              && k < |Requests(inbound)| && Requests(inbound)[k] == inbound[k].request
              && (k == writable ==> EndsAt(inbound, writable, k, k + 1, SendFailed))
  {
    if k < |inbound| {
      RequestsAt(inbound, k);
    }
  }

  predicate EndsAt(inbound: seq<Incoming>, writable: nat, answered: nat, lookups: nat, ending: Ending) {
    && Min(|Requests(inbound)|, writable) == answered
    && Lookups(inbound, writable) == lookups
    && EndingOf(inbound, writable) == ending
  }

  /** What is left to read once `k` items have been used and the next has been asked for. */
  function LeftAfter(inbound: seq<Incoming>, k: nat): seq<Incoming> {
    if k < |inbound| then inbound[k + 1..] else []
  }

  function ItemAt(inbound: seq<Incoming>, k: nat): Option<Incoming> {
    if k < |inbound| then Some(inbound[k]) else None
  }

  /** What each ending means: the loop runs to the end of the stream exactly when everything
      decodes and every answer can be written; otherwise it is stopped by the first item
      that is not a request, or by the first answer too many, whichever comes first. */
  lemma EndingIff(inbound: seq<Incoming>, writable: nat)
    ensures EndingOf(inbound, writable) == EndOfStream <==>
            |inbound| <= writable && forall i | 0 <= i < |inbound| :: inbound[i].Decodable?
    ensures EndingOf(inbound, writable) == ReceiveFailed <==>
            exists n :: StopsAt(inbound, n) && n <= writable && n < |inbound| && inbound[n].Broken?
    ensures EndingOf(inbound, writable) == DecodeFailed <==>
            exists n :: StopsAt(inbound, n) && n <= writable && n < |inbound| && inbound[n].Undecodable?
    ensures EndingOf(inbound, writable) == SendFailed <==> exists n :: StopsAt(inbound, n) && n > writable
  {
    var n := |Requests(inbound)|;
    assert StopsAt(inbound, n);
    forall m | StopsAt(inbound, m)
      ensures m == n
    {
    }
  }

  /** The first `n` items are requests, and the next is not one or there is none. */
  predicate StopsAt(inbound: seq<Incoming>, n: int) {
    && 0 <= n <= |inbound| && (forall i | 0 <= i < n :: inbound[i].Decodable?)
    && (n < |inbound| ==> !inbound[n].Decodable?)
  }

  lemma AnswerSays(services: Registry, oracle: Oracle, i: nat, request: Request)
    ensures var response := Answer(services, oracle, i, request);
            match Split(request.methodName)
            case Malformed =>
              IsFailure(response, request.id,
                        "Invalid method format. Expected 'service.method', got '" + request.methodName + "'")
            case Routed(service, methodName) =>
              if service !in services then IsFailure(response, request.id, "Service not found: " + service)
              else
                match oracle(i, services[service], methodName, request.payload)
                case Replied(bytes) => IsReply(response, request.id, bytes)
                case Faulted(text) => IsFailure(response, request.id, text)
                case TimedOut => IsFailure(response, request.id, "Request timeout")
  {
    RespondSays(services, request,
                match Target(services, request)
                case None => TimedOut
                case Some(service) =>
                  oracle(i, service, Split(request.methodName).MethodOr(""), request.payload));
  }

  /** One turn of the session loop: route the request, call the service if there is one,
      and write the response. */
  method AnswerRequest(stream: MessageStream, server: Server, request: Request, oracle: Oracle, k: nat)
    returns (ok: bool)
    modifies stream`outbound, stream`writable
    ensures ok <==> old(stream.writable) > 0
    ensures stream.writable == if ok then old(stream.writable) - 1 else old(stream.writable)
    ensures stream.outbound ==
            if ok then old(stream.outbound) + [Answer(server.services, oracle, k, request)]
            else old(stream.outbound)
    ensures ok ==>
              var response := stream.outbound[|stream.outbound| - 1];
              match Split(request.methodName)
              case Malformed =>
                IsFailure(response, request.id,
                          "Invalid method format. Expected 'service.method', got '" + request.methodName + "'")
              case Routed(service, methodName) =>
                if service !in server.services then IsFailure(response, request.id, "Service not found: " + service)
                else
                  match oracle(k, server.services[service], methodName, request.payload)
                  case Replied(bytes) => IsReply(response, request.id, bytes)
                  case Faulted(text) => IsFailure(response, request.id, text)
                  case TimedOut => IsFailure(response, request.id, "Request timeout")
  {
    AnswerSays(server.services, oracle, k, request);
    match Split(request.methodName)
    case Malformed =>
      ok := stream.Send(ErrorResponse(request.id, MalformedText(request.methodName)));
    case Routed(serviceName, methodName) =>
      if serviceName !in server.services {
        ok := stream.Send(ErrorResponse(request.id, UnknownText(serviceName)));
        return;
      }
      var result := oracle(k, server.services[serviceName], methodName, request.payload);
      ok := stream.Send(ResultResponse(request.id, result));
  }

  /** The session loop. It answers the decodable requests in order, each from the registry
      at its own lookup, up to the first write that fails; and says how it ended. */
  method HandleSession(stream: MessageStream, server: Server, arrivals: seq<seq<Registration>>, oracle: Oracle)
    returns (ending: Ending)
    requires |stream.inbound| <= |arrivals|
    modifies stream, server
    ensures var requests := Requests(old(stream.inbound));
            var n := Min(|requests|, old(stream.writable));
            && stream.outbound == old(stream.outbound) + Answers(old(server.services), arrivals, oracle, requests, n)
            && stream.writable == old(stream.writable) - n
            && stream.inbound == LeftAfter(old(stream.inbound), n)
    ensures ending == EndingOf(old(stream.inbound), old(stream.writable))
    ensures server.services ==
            ServicesBefore(old(server.services), arrivals, Lookups(old(stream.inbound), old(stream.writable)))
  {
    ghost var inbound, outbound, writable := stream.inbound, stream.outbound, stream.writable;
    ghost var services := server.services;
    ghost var requests := Requests(inbound);
    var k := 0;
    var item := stream.Receive();
    while item.Some?
      invariant k <= |requests| && k <= writable && stream.writable == writable - k
      invariant item == ItemAt(inbound, k)
      invariant stream.inbound == LeftAfter(inbound, k)
      invariant stream.outbound == outbound + Answers(services, arrivals, oracle, requests, k)
      invariant server.services == ServicesBefore(services, arrivals, k)
      decreases |inbound| - k
    {
      SessionEnds(inbound, writable, k);
      if item.value.Broken? {
        return ReceiveFailed;
      }
      if item.value.Undecodable? {
        return DecodeFailed;
      }
      ServicesNext(services, arrivals, k);
      AnswersNext(services, arrivals, oracle, requests, k, outbound);
      server.RegisterAll(arrivals[k]);
      var ok := AnswerRequest(stream, server, item.value.request, oracle, k);
      if !ok {
        return SendFailed;
      }
      k := k + 1;
      item := stream.Receive();
    }
    SessionEnds(inbound, writable, k);
    ending := EndOfStream;
  }

  /** The service a request named `name` is passed to at lookup `i`, if there is one: what
      was last registered under the name, or else what was there first. */
  function ServiceAt(services: Registry, arrivals: seq<seq<Registration>>, i: nat, name: string): Option<Service>
    requires i < |arrivals|
  {
    match LastRegistered(Flatten(arrivals[..i + 1]), name)
    case Some(service) => Some(service)
    case None => if name in services then Some(services[name]) else None
  }

  /** Each of the `n` requests a session gets to answer before the first failure - all that
      come in, when there is none - is answered, in order and under its own id:
      a malformed name and an unknown service with the texts for them, and otherwise, from
      the service last registered under the requested name, its reply, its fault with its
      own text, or a timeout. */
  lemma EveryRequestAnswered(services: Registry, arrivals: seq<seq<Registration>>, oracle: Oracle,
                             inbound: seq<Incoming>, n: nat, i: nat)
    requires |inbound| <= |arrivals| && i < n <= |Requests(inbound)|
    ensures (forall j | 0 <= j < |inbound| :: inbound[j].Decodable?) ==> |Requests(inbound)| == |inbound|
    ensures var answers := Answers(services, arrivals, oracle, Requests(inbound), n);
            var request := inbound[i].request;
            && |answers| == n
            && match Split(request.methodName)
               case Malformed =>
                 IsFailure(answers[i], request.id,
                           "Invalid method format. Expected 'service.method', got '" + request.methodName + "'")
               case Routed(name, methodName) =>
                 match ServiceAt(services, arrivals, i, name)
                 case None => IsFailure(answers[i], request.id, "Service not found: " + name)
                 case Some(service) =>
                   match oracle(i, service, methodName, request.payload)
                   case Replied(bytes) => IsReply(answers[i], request.id, bytes)
                   case Faulted(text) => IsFailure(answers[i], request.id, text)
                   case TimedOut => IsFailure(answers[i], request.id, "Request timeout")
  {
    var requests := Requests(inbound);
    assert inbound[i] == Decodable(requests[i]);
    AnswerSays(ServicesAt(services, arrivals, i), oracle, i, requests[i]);
    if Split(requests[i].methodName).Routed? {
      AfterAllFinds(services, Flatten(arrivals[..i + 1]), Split(requests[i].methodName).service);
    }
  }

  /** Whatever a session sends is a possible response under the registry at its lookup, as
      long as the services keep to their behaviour. */
  lemma AnswersPossible(behaviour: Behaviour, services: Registry, oracle: Oracle, i: nat, request: Request)
    requires forall service: Service, methodName: string, payload: Bytes ::
               oracle(i, service, methodName, payload).TimedOut?
                   || behaviour(service, methodName, payload, oracle(i, service, methodName, payload))
    ensures PossibleOutcome(behaviour, services, request, ValueOf(Answer(services, oracle, i, request)))
  {
    var result := match Target(services, request)
                  case None => TimedOut
                  case Some(service) => oracle(i, service, Split(request.methodName).MethodOr(""), request.payload);
    assert Allowed(behaviour, services, request, result);
    assert Answer(services, oracle, i, request) == Respond(services, request, result);
  }
}
