/**
 * The ANONYMOUS SASL mechanism (RFC 4505): a constant descriptor that sends
 * no credentials and no initial response.
 */
module SaslAnonymous {
  import opened Wrappers
  import opened SaslMechanism

  const NAME: string := "ANONYMOUS"
  const PRIORITY: int := 500

  /** A SmackException a mechanism step may throw. */
  datatype MechanismError = MechanismError(message: string)

  /** getName(): the registered name of the mechanism, well-formed in the sense of RFC 4422. */
  function Name(): (n: string)
    ensures n == NAME && ValidMechanismName(n)
  {
    assert forall i :: 0 <= i < |NAME| ==> MechanismChar(NAME[i]);
    NAME
  }

  /** getPriority(). */
  function Priority(): (p: int)
    ensures p == PRIORITY
  {
    500
  }

  /** authenticateInternal(username, host, serviceName, password): nothing to prepare, never throws. */
  function AuthenticateInternalWithPassword(username: Option<string>, host: Option<string>, serviceName: Option<string>,
                                            password: string): (r: Result<(), MechanismError>)
    ensures r.Ok?
  {
    Ok(())
  }

  /** authenticateInternal(host, callbackHandler): nothing to prepare, never throws; the handler is not modelled. */
  function AuthenticateInternalWithHandler(host: Option<string>): (r: Result<(), MechanismError>)
    ensures r.Ok?
  {
    Ok(())
  }

  /** getAuthenticationText(): null, so the `<auth/>` element carries no initial response. */
  function AuthenticationText(): (t: Result<Option<string>, MechanismError>)
    ensures t == Ok(None)
  {
    Ok(None)
  }

  /** `new SASLAnonymous()`, and newInstance() on an ANONYMOUS object: a new, distinct ANONYMOUS mechanism. */
  method Create() returns (m: Mechanism)
    ensures fresh(m)
    ensures m.name == Name() && m.priority == Priority()
  {
    m := new Mechanism(NAME, PRIORITY);
  }
}
