/**
 * A SASL mechanism object as the negotiation coordinator sees it: a name, a
 * priority, and a way to create a fresh object of the same mechanism for each
 * authentication attempt.
 */
module SaslMechanism {

  /** RFC 4422 section 3.1: a mechanism name is 1 to 20 characters of A-Z, 0-9, `-` and `_`. */
  predicate MechanismChar(c: char) {
    ('A' <= c <= 'Z') || ('0' <= c <= '9') || c == '-' || c == '_'
  }

  predicate ValidMechanismName(name: string) {
    1 <= |name| <= 20 && forall i :: 0 <= i < |name| ==> MechanismChar(name[i])
  }

  /**
   * SASLMechanism. The subclasses differ in what they send over the
   * connection, which is not part of this model; what the coordinator reads
   * of a mechanism is its name (getName) and priority (getPriority).
   */
  class Mechanism {
    const name: string
    const priority: int

    constructor (name: string, priority: int)
      ensures this.name == name && this.priority == priority
    {
      this.name := name;
      this.priority := priority;
    }

    /** newInstance(): a new object of the same mechanism, never this one. */
    method NewInstance() returns (m: Mechanism)
      ensures fresh(m) && m != this
      ensures m.name == name && m.priority == priority
    {
      m := new Mechanism(name, priority);
    }
  }

  /** The names of a sequence of mechanisms, in order. */
  function Names(ms: seq<Mechanism>): (names: seq<string>)
    ensures |names| == |ms|
    ensures forall i :: 0 <= i < |ms| ==> names[i] == ms[i].name
  {
    if ms == [] then [] else [ms[0].name] + Names(ms[1..])
  }
}
