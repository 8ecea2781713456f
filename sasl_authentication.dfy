/**
 * SASL negotiation (RFC 4422, as profiled by section 6 of RFC 6120): the
 * process-wide registry of mechanisms and the per-connection coordinator that
 * picks a mechanism the server offers, waits for the server's verdict and
 * turns the latched verdict into an outcome.
 *
 * The blocking wait is modelled by the sequence of notifications (success,
 * failure) that the connection's reader delivers while the caller waits:
 * none, one, or several, in arrival order.
 */
module SaslAuthentication {
  import opened Wrappers
  import opened SaslMechanism
  import SaslAnonymous

  /** The `<failure/>` the server sent (section 6.5 of RFC 6120), reduced to its condition. */
  datatype SaslFailure = SaslFailure(condition: string)

  /** What the connection's reader reports while the caller waits: authenticated() or authenticationFailed(f). */
  datatype Notification = Success | Failure(failure: SaslFailure)

  /** The two latched fields: saslNegotiated and saslFailure (None for null). */
  datatype Latches = Latches(negotiated: bool, failure: Option<SaslFailure>)

  /** The state init() leaves the latches in. */
  const RESET: Latches := Latches(false, None)

  /**
   * How a SASLErrorException names the mechanism: by getName() after
   * authenticate, by the object's toString() after authenticateAnonymously
   * (toString is not part of this model).
   */
  datatype MechanismLabel = MechanismName(name: string) | ObjectDescription

  datatype AuthError =
    /** SASLErrorException(mechanism, failure). */
    | SaslError(mechanism: MechanismLabel, failure: SaslFailure)
    /** NoResponseException: the wait ended without a verdict. */
    | NoResponse
    /** SmackException("SASL Authentication failed. No known authentication mechanisims."). */
    | NoKnownMechanism

  /**
   * The arguments of the two authenticate overloads; they only reach the
   * mechanism's own authenticate step, which talks to the server and is not
   * part of this model (nor is the CallbackHandler).
   */
  datatype Credentials =
    | Handler(resource: string)
    | Password(username: string, password: string, resource: string)

  // ---------------------------------------------------------------------------
  // Specification

  /** The latches after one notification: each sets its own field and nothing else. */
  function Latch(l: Latches, n: Notification): Latches {
    match n
    case Success => l.(negotiated := true)
    case Failure(f) => l.(failure := Some(f))
  }

  /** The latches after a sequence of notifications, in arrival order. */
  function LatchAll(l: Latches, ns: seq<Notification>): Latches
    decreases |ns|
  {
    if ns == [] then l else Latch(LatchAll(l, ns[..|ns| - 1]), ns[|ns| - 1])
  }

  /** The decision taken after the wait: a failure first, then the absence of success, then success. */
  function Decision(l: Latches, named: MechanismLabel): Result<(), AuthError> {
    if l.failure.Some? then Err(SaslError(named, l.failure.value))
    else if !l.negotiated then Err(NoResponse)
    else Ok(())
  }

  /**
   * The index of the first name of `names` that `offered` contains, in the
   * order of `names`: the selection loop of authenticate.
   */
  function FirstOffered(names: seq<string>, offered: seq<string>): (k: Option<nat>)
    ensures k.Some? ==> k.value < |names| && names[k.value] in offered
                        && forall j :: 0 <= j < k.value ==> names[j] !in offered
    ensures k.None? <==> forall j :: 0 <= j < |names| ==> names[j] !in offered
  {
    if names == [] then None
    else if names[0] in offered then Some(0)
    else
      match FirstOffered(names[1..], offered)
      case None => None
      case Some(k) => Some(k + 1)
  }

  /** saslNegotiated ends up true exactly when it already was or a success arrived. */
  lemma {:induction false} NegotiatedLatches(l: Latches, ns: seq<Notification>)
    ensures LatchAll(l, ns).negotiated <==> l.negotiated || Success in ns
    decreases |ns|
  {
    if ns != [] {
      var init := ns[..|ns| - 1];
      NegotiatedLatches(l, init);
      assert ns == init + [ns[|ns| - 1]];
      assert Success in ns <==> Success in init || ns[|ns| - 1] == Success;
    }
  }

  /** Without a failure notification saslFailure keeps its value; otherwise it holds the LAST failure that arrived. */
  lemma {:induction false} FailureLatches(l: Latches, ns: seq<Notification>)
    ensures (forall k :: 0 <= k < |ns| ==> !ns[k].Failure?) ==> LatchAll(l, ns).failure == l.failure
    ensures forall k :: 0 <= k < |ns| && ns[k].Failure? && (forall j :: k < j < |ns| ==> !ns[j].Failure?)
                        ==> LatchAll(l, ns).failure == Some(ns[k].failure)
    decreases |ns|
  {
    if ns != [] {
      var init, last := ns[..|ns| - 1], ns[|ns| - 1];
      FailureLatches(l, init);
      assert LatchAll(l, ns) == Latch(LatchAll(l, init), last);
      if last.Failure? {
        forall k | 0 <= k < |ns| && ns[k].Failure? && (forall j :: k < j < |ns| ==> !ns[j].Failure?)
          ensures k == |ns| - 1
        {
          if k < |ns| - 1 {
            assert false;
          }
        }
      } else {
        assert LatchAll(l, ns).failure == LatchAll(l, init).failure;
        forall k | 0 <= k < |ns| && ns[k].Failure? && (forall j :: k < j < |ns| ==> !ns[j].Failure?)
          ensures LatchAll(l, ns).failure == Some(ns[k].failure)
        {
          assert k < |init| && init[k] == ns[k];
          assert forall j :: k < j < |init| ==> init[j] == ns[j];
        }
        assert (forall k :: 0 <= k < |ns| ==> !ns[k].Failure?) ==> (forall k :: 0 <= k < |init| ==> !init[k].Failure?);
      }
    }
  }

  /**
   * The outcome of a fresh attempt (latches reset) for every arrival order:
   * any failure gives SASLErrorException with the last failure that arrived,
   * even when a success arrived too; otherwise success iff a success arrived,
   * and NoResponseException iff nothing arrived that counts.
   */
  lemma OutcomeAfterReset(ns: seq<Notification>, named: MechanismLabel)
    ensures forall k :: 0 <= k < |ns| && ns[k].Failure? && (forall j :: k < j < |ns| ==> !ns[j].Failure?)
                        ==> Decision(LatchAll(RESET, ns), named) == Err(SaslError(named, ns[k].failure))
    ensures (forall k :: 0 <= k < |ns| ==> !ns[k].Failure?) ==>
              (Decision(LatchAll(RESET, ns), named) == Ok(()) <==> Success in ns)
              && (Decision(LatchAll(RESET, ns), named) == Err(NoResponse) <==> Success !in ns)
  {
    NegotiatedLatches(RESET, ns);
    FailureLatches(RESET, ns);
  }

  /**
   * The authenticate methods never reset the latches: a failure latched by an
   * earlier attempt fails every later attempt until init() runs, whatever the
   * server answers now.
   */
  lemma StaleFailureSticks(l: Latches, ns: seq<Notification>, named: MechanismLabel)
    requires l.failure.Some?
    ensures Decision(LatchAll(l, ns), named).Err? && Decision(LatchAll(l, ns), named).error.SaslError?
  {
    FailureLatches(l, ns);
  }

  /** Likewise a success latched earlier makes a silent server look like success. */
  lemma StaleSuccessSticks(l: Latches, ns: seq<Notification>, named: MechanismLabel)
    requires l.negotiated && l.failure.None?
    requires forall k :: 0 <= k < |ns| ==> !ns[k].Failure?
    ensures Decision(LatchAll(l, ns), named) == Ok(())
  {
    NegotiatedLatches(l, ns);
    FailureLatches(l, ns);
  }

  // ---------------------------------------------------------------------------
  // State

  /** REGISTERED_MECHANISMS: one registry shared by every connection. */
  class Registry {
    var mechanisms: seq<Mechanism>

    constructor ()
      ensures mechanisms == []
    {
      mechanisms := [];
    }

    /**
     * registerSASLMechanism: the mechanism joins the registry. Where it lands
     * in the iteration order is left open, since the queue's order is not
     * specified.
     */
    method Register(m: Mechanism)
      modifies this
      ensures multiset(mechanisms) == multiset(old(mechanisms)) + multiset{m}
    {
      mechanisms := mechanisms + [m];
    }
  }

  /** SASLAuthentication: the negotiation state of one connection. */
  class Authentication {
    const registry: Registry
    var serverMechanisms: seq<string>
    var currentMechanism: Option<Mechanism>
    var saslNegotiated: bool
    var saslFailure: Option<SaslFailure>

    function Latched(): Latches
      reads this
    {
      Latches(saslNegotiated, saslFailure)
    }

    /** The constructor runs init(); the server list starts empty and no mechanism is current. */
    constructor (registry: Registry)
      ensures this.registry == registry
      ensures serverMechanisms == [] && currentMechanism == None && Latched() == RESET
    {
      this.registry := registry;
      serverMechanisms := [];
      currentMechanism := None;
      saslNegotiated := false;
      saslFailure := None;
    }

    /** getRegisterdSASLMechanisms: the registered mechanisms' names in iteration order. */
    method RegisteredSaslMechanisms() returns (answer: seq<string>)
      ensures answer == Names(registry.mechanisms)
    {
      var ms := registry.mechanisms;
      answer := [];
      for i := 0 to |ms|
        invariant answer == Names(ms[..i])
      {
        assert ms[..i + 1] == ms[..i] + [ms[i]];
        NamesAppend(ms[..i], ms[i]);
        answer := answer + [ms[i].name];
      }
      assert ms[..|ms|] == ms;
    }

    /** hasAnonymousAuthentication: the server offered ANONYMOUS. */
    function HasAnonymousAuthentication(): (b: bool)
      reads this
      ensures b <==> exists i :: 0 <= i < |serverMechanisms| && serverMechanisms[i] == SaslAnonymous.NAME
    {
      SaslAnonymous.NAME in serverMechanisms
    }

    /** hasNonAnonymousAuthentication: the server offered something, and not exactly ANONYMOUS alone. */
    function HasNonAnonymousAuthentication(): (b: bool)
      reads this
      ensures b <==> serverMechanisms != [] && serverMechanisms != [SaslAnonymous.NAME]
    {
      |serverMechanisms| != 0 && (|serverMechanisms| != 1 || !HasAnonymousAuthentication())
    }

    /** setAvailableSASLMethods: the server's list replaces the previous one; nothing else changes. */
    method SetAvailableSaslMethods(mechanisms: seq<string>)
      modifies this
      ensures serverMechanisms == mechanisms
      ensures currentMechanism == old(currentMechanism) && Latched() == old(Latched())
    {
      serverMechanisms := mechanisms;
    }

    /** authenticated(): only saslNegotiated is set. */
    method Authenticated()
      modifies this
      ensures saslNegotiated && saslFailure == old(saslFailure)
      ensures serverMechanisms == old(serverMechanisms) && currentMechanism == old(currentMechanism)
    {
      saslNegotiated := true;
    }

    /** authenticationFailed(f): only saslFailure is set. */
    method AuthenticationFailed(failure: SaslFailure)
      modifies this
      ensures saslFailure == Some(failure) && saslNegotiated == old(saslNegotiated)
      ensures serverMechanisms == old(serverMechanisms) && currentMechanism == old(currentMechanism)
    {
      saslFailure := Some(failure);
    }

    /** init(): both latches reset; nothing else changes. */
    method Init()
      modifies this
      ensures Latched() == RESET
      ensures serverMechanisms == old(serverMechanisms) && currentMechanism == old(currentMechanism)
    {
      saslNegotiated := false;
      saslFailure := None;
    }

    /**
     * challengeReceived: the challenge is forwarded to the current mechanism,
     * which answers the server itself (not part of this model). The result is
     * the mechanism it goes to; None stands for the NullPointerException
     * raised when no authentication has started. The coordinator is unchanged.
     */
    method ChallengeReceived(challenge: string) returns (target: Option<Mechanism>)
      ensures target == currentMechanism
    {
      target := currentMechanism;
    }

    /** The wait: the notifications that arrive are applied in order. */
    method AwaitVerdict(arrivals: seq<Notification>)
      modifies this
      ensures Latched() == LatchAll(old(Latched()), arrivals)
      ensures serverMechanisms == old(serverMechanisms) && currentMechanism == old(currentMechanism)
    {
      var j := 0;
      while j < |arrivals|
        invariant 0 <= j <= |arrivals|
        invariant Latched() == LatchAll(old(Latched()), arrivals[..j])
        invariant serverMechanisms == old(serverMechanisms) && currentMechanism == old(currentMechanism)
      {
        assert arrivals[..j + 1][..j] == arrivals[..j];
        match arrivals[j] {
          case Success => Authenticated();
          case Failure(f) => AuthenticationFailed(f);
        }
        j := j + 1;
      }
      assert arrivals[..|arrivals|] == arrivals;
    }

    /** The decision after the wait, read from the latched fields. */
    method Verdict(named: MechanismLabel) returns (r: Result<(), AuthError>)
      ensures r == Decision(Latched(), named)
    {
      if saslFailure.Some? {
        r := Err(SaslError(named, saslFailure.value));
      } else if !saslNegotiated {
        r := Err(NoResponse);
      } else {
        r := Ok(());
      }
    }

    /**
     * Both authenticate overloads: select the first registered mechanism the
     * server offers, make a fresh instance of it current, wait for the verdict
     * and decide. With no such mechanism nothing changes and the call throws
     * "No known authentication mechanisims".
     */
    method Authenticate(credentials: Credentials, arrivals: seq<Notification>) returns (r: Result<(), AuthError>)
      modifies this
      ensures serverMechanisms == old(serverMechanisms)
      ensures FirstOffered(Names(registry.mechanisms), serverMechanisms).None? ==>
                r == Err(NoKnownMechanism) && currentMechanism == old(currentMechanism) && Latched() == old(Latched())
      ensures var k := FirstOffered(Names(registry.mechanisms), serverMechanisms);
              k.Some? ==>
                && currentMechanism.Some? && fresh(currentMechanism.value)
                && currentMechanism.value !in registry.mechanisms
                && currentMechanism.value.name == registry.mechanisms[k.value].name
                && Latched() == LatchAll(old(Latched()), arrivals)
                && r == Decision(Latched(), MechanismName(currentMechanism.value.name))
    {
      var ms := registry.mechanisms;
      var selected: Option<Mechanism> := None;
      var i := 0;
      while i < |ms|
        invariant 0 <= i <= |ms|
        invariant forall j :: 0 <= j < i ==> ms[j].name !in serverMechanisms
      {
        if ms[i].name in serverMechanisms {
          var m := ms[i].NewInstance();
          selected := Some(m);
          break;
        }
        i := i + 1;
      }
      if selected.Some? {
        assert FirstOffered(Names(ms), serverMechanisms) == Some(i) by {
          FirstOfferedUnique(Names(ms), serverMechanisms, i);
        }
        currentMechanism := selected;
        AwaitVerdict(arrivals);
        r := Verdict(MechanismName(selected.value.name));
      } else {
        r := Err(NoKnownMechanism);
      }
    }

    /**
     * authenticateAnonymously: a new ANONYMOUS mechanism becomes current
     * whether or not the server offered it, then the same wait and decision,
     * the error naming the mechanism object rather than its name.
     */
    method AuthenticateAnonymously(arrivals: seq<Notification>) returns (r: Result<(), AuthError>)
      modifies this
      ensures serverMechanisms == old(serverMechanisms)
      ensures currentMechanism.Some? && fresh(currentMechanism.value)
      ensures currentMechanism.value.name == SaslAnonymous.Name()
      ensures Latched() == LatchAll(old(Latched()), arrivals)
      ensures r == Decision(Latched(), ObjectDescription)
    {
      var m := SaslAnonymous.Create();
      currentMechanism := Some(m);
      AwaitVerdict(arrivals);
      r := Verdict(ObjectDescription);
    }
  }

  lemma {:induction false} NamesAppend(ms: seq<Mechanism>, m: Mechanism)
    ensures Names(ms + [m]) == Names(ms) + [m.name]
  {
  }

  /** An index meeting FirstOffered's description is the one it returns. */
  lemma FirstOfferedUnique(names: seq<string>, offered: seq<string>, i: nat)
    requires i < |names| && names[i] in offered && forall j :: 0 <= j < i ==> names[j] !in offered
    ensures FirstOffered(names, offered) == Some(i)
  {
  }

  /** With a duplicate-free server list, hasNonAnonymousAuthentication means some mechanism other than ANONYMOUS was offered. */
  lemma NonAnonymousOffered(a: Authentication)
    requires forall i, j :: 0 <= i < j < |a.serverMechanisms| ==> a.serverMechanisms[i] != a.serverMechanisms[j]
    ensures a.HasNonAnonymousAuthentication()
            <==> exists i :: 0 <= i < |a.serverMechanisms| && a.serverMechanisms[i] != SaslAnonymous.NAME
  {
    var s := a.serverMechanisms;
    if |s| >= 2 {
      assert s[0] != SaslAnonymous.NAME || s[1] != SaslAnonymous.NAME;
    }
  }

  /** A server list naming ANONYMOUS twice counts as offering more than ANONYMOUS. */
  lemma RepeatedAnonymousCountsAsOther(a: Authentication)
    requires a.serverMechanisms == [SaslAnonymous.NAME, SaslAnonymous.NAME]
    ensures a.HasNonAnonymousAuthentication()
    ensures forall i :: 0 <= i < |a.serverMechanisms| ==> a.serverMechanisms[i] == SaslAnonymous.NAME
  {
  }
}
