/** Method names: how a caller builds one (src/utils.rs) and how the server takes it
    apart again (src/server.rs). */
module Routing {

  datatype Route = Malformed | Routed(service: string, methodName: string) {
    /** The method half, if the name was well formed. */
    function MethodOr(default: string): string {
      match this
      case Malformed => default
      case Routed(_, methodName) => methodName
    }
  }

  function FormatMethodName(service: string, methodName: string): string {
    service + "." + methodName
  }

  /** The position of the first dot, or the length when there is none. */
  function FirstDot(name: string): (i: nat)
    ensures i <= |name|
    ensures '.' !in name[..i]
    ensures i < |name| ==> name[i] == '.'
  {
    if name == [] || name[0] == '.' then 0
    else
      var rest := FirstDot(name[1..]);
      assert name[..rest + 1] == [name[0]] + name[1..][..rest];
      rest + 1
  }

  /** `splitn(2, '.')` followed by the test that there are exactly two parts. */
  function Split(name: string): Route {
    var i := FirstDot(name);
    if i == |name| then Malformed else Routed(name[..i], name[i + 1..])
  }

  /** The prefix before the first dot is determined by where that dot is. */
  lemma {:induction false} FirstDotUnique(name: string, i: nat)
    requires i < |name| && name[i] == '.' && '.' !in name[..i]
    ensures FirstDot(name) == i
  {
    if i > 0 {
      assert name[..i] == [name[0]] + name[1..][..i - 1];
      FirstDotUnique(name[1..], i - 1);
    }
  }

  /** A name is malformed exactly when it has no dot. */
  lemma MalformedIffNoDot(name: string)
    ensures Split(name).Malformed? <==> '.' !in name
  {
    var i := FirstDot(name);
    if i == |name| {
      assert name[..i] == name;
    }
  }

  /** Joining the two halves of a successful split restores the name, and the service
      half never holds a dot. */
  lemma SplitRestores(name: string)
    requires Split(name).Routed?
    ensures FormatMethodName(Split(name).service, Split(name).methodName) == name
    ensures '.' !in Split(name).service
  {
    var i := FirstDot(name);
    assert name[..i] + [name[i]] + name[i + 1..] == name;
  }

  /** The server takes a formatted name apart as the caller meant it exactly when the
      service name has no dot, whatever the method name is. */
  lemma FormatRoundTrip(service: string, methodName: string)
    ensures Split(FormatMethodName(service, methodName)) == Routed(service, methodName) <==> '.' !in service
  {
    var name := FormatMethodName(service, methodName);
    if '.' !in service {
      assert name[|service|] == '.';
      assert name[..|service|] == service;
      FirstDotUnique(name, |service|);
      assert name[|service| + 1..] == methodName;
    }
  }

  /** Some request reaches the services registered under `service` exactly when that
      name has no dot. */
  lemma ReachableIffUndotted(service: string)
    ensures (exists name: string :: Split(name).Routed? && Split(name).service == service) <==> '.' !in service
  {
    if '.' !in service {
      FormatRoundTrip(service, "");
      assert Split(FormatMethodName(service, "")).service == service;
    }
  }
}
