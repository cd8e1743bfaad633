/**
 * The method table of an RPC service: method names mapped to invokers that
 * turn an encoded request into an encoded response. Registration never
 * overwrites: the first invoker registered under a name stays.
 *
 * The typed closures behind an invoker (argument decoding, the call on the
 * service object, result encoding) are not part of this model: an invoker is
 * a function value from request bytes to response bytes.
 */
module RpcServices {
  import opened ByteStrings

  type MethodName = string
  type Invoker = BytesValue -> BytesValue

  /** One RegisterRPCMethod call made by a service's RegisterRPCMethods. */
  datatype Registration = Registration(name: MethodName, invoker: Invoker)

  /** std::map::emplace: inserts only when the name is not there yet. */
  function Emplace(methods: map<MethodName, Invoker>, name: MethodName, invoker: Invoker): map<MethodName, Invoker> {
    if name in methods then methods else methods[name := invoker]
  }

  /** The table after the registrations are made one after the other. */
  function RegisterAll(methods: map<MethodName, Invoker>, registrations: seq<Registration>): map<MethodName, Invoker>
    decreases |registrations|
  {
    if registrations == [] then methods
    else RegisterAll(Emplace(methods, registrations[0].name, registrations[0].invoker), registrations[1..])
  }

  /** A name is registered afterwards iff it was before or some registration names it. */
  lemma {:induction false} RegisteredIff(methods: map<MethodName, Invoker>, registrations: seq<Registration>, name: MethodName)
    ensures name in RegisterAll(methods, registrations) <==>
              name in methods || exists k :: 0 <= k < |registrations| && registrations[k].name == name
    decreases |registrations|
  {
    if registrations != [] {
      var first := registrations[0];
      var rest := registrations[1..];
      RegisteredIff(Emplace(methods, first.name, first.invoker), rest, name);
      if exists k :: 0 <= k < |rest| && rest[k].name == name {
        var k :| 0 <= k < |rest| && rest[k].name == name;
        assert registrations[k + 1].name == name;
      }
      if exists k :: 0 <= k < |registrations| && registrations[k].name == name {
        var k :| 0 <= k < |registrations| && registrations[k].name == name;
        if k > 0 {
          assert rest[k - 1].name == name;
        }
      }
    }
  }

  /** An invoker already in the table survives any later registrations. */
  lemma {:induction false} RegisteredStays(methods: map<MethodName, Invoker>, registrations: seq<Registration>, name: MethodName)
    requires name in methods
    ensures name in RegisterAll(methods, registrations)
    ensures RegisterAll(methods, registrations)[name] == methods[name]
    decreases |registrations|
  {
    if registrations != [] {
      RegisteredStays(Emplace(methods, registrations[0].name, registrations[0].invoker), registrations[1..], name);
    }
  }

  /** A new name gets the invoker of the first registration that names it. */
  lemma {:induction false} FirstRegistrationWins(methods: map<MethodName, Invoker>, registrations: seq<Registration>, k: nat)
    requires k < |registrations| && registrations[k].name !in methods
    requires forall j :: 0 <= j < k ==> registrations[j].name != registrations[k].name
    ensures registrations[k].name in RegisterAll(methods, registrations)
    ensures RegisterAll(methods, registrations)[registrations[k].name] == registrations[k].invoker
    decreases k
  {
    var first := registrations[0];
    var next := Emplace(methods, first.name, first.invoker);
    if k == 0 {
      RegisteredStays(next, registrations[1..], first.name);
    } else {
      assert registrations[1..][k - 1] == registrations[k];
      FirstRegistrationWins(next, registrations[1..], k - 1);
    }
  }

  class Service {
    var methods: map<MethodName, Invoker>

    constructor ()
      ensures methods == map[]
    {
      methods := map[];
    }

    predicate Has(name: MethodName)
      reads this
    {
      name in methods
    }

    /** Runs the invoker registered under `name`; an unknown name is a fatal error. */
    method Invoke(name: MethodName, input: BytesValue) returns (output: BytesValue)
      requires Has(name)
      ensures output == methods[name](input)
    {
      var invoker := methods[name];
      output := invoker(input);
    }

    method RegisterRPCMethod(name: MethodName, invoker: Invoker)
      modifies this
      ensures methods == Emplace(old(methods), name, invoker)
    {
      if name !in methods {
        methods := methods[name := invoker];
      }
    }

    /**
     * Runs the service's RegisterRPCMethods, given as the registrations it
     * makes; the base service's default makes none.
     */
    method Initialize(registrations: seq<Registration>)
      modifies this
      ensures methods == RegisterAll(old(methods), registrations)
    {
      var k := 0;
      while k < |registrations|
        invariant k <= |registrations|
        invariant RegisterAll(methods, registrations[k..]) == RegisterAll(old(methods), registrations)
      {
        assert registrations[k..][1..] == registrations[k + 1..];
        RegisterRPCMethod(registrations[k].name, registrations[k].invoker);
        k := k + 1;
      }
    }
  }

  /**
   * A fresh service initialised with `registrations` has a method exactly
   * when one of the registrations names it.
   */
  method HasAfterInitialize(registrations: seq<Registration>, name: MethodName) returns (has: bool)
    ensures has <==> exists k :: 0 <= k < |registrations| && registrations[k].name == name
  {
    var service := new Service();
    service.Initialize(registrations);
    has := service.Has(name);
    RegisteredIff(map[], registrations, name);
  }

  /** A fresh service initialised with the default (empty) registrations has no methods. */
  method DefaultServiceHasNoMethods(name: MethodName) returns (has: bool)
    ensures !has
  {
    var service := new Service();
    service.Initialize([]);
    has := service.Has(name);
  }
}
