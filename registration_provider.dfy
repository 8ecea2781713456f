/**
 * The in-band registration decoder (XEP-0077): it walks the children of a
 * `<query xmlns='jabber:iq:register'/>` element. Children in the register
 * namespace are `<name>value</name>` fields, `instructions` among them;
 * every other child is kept as an extension element.
 */
module RegistrationProvider {
  import opened Wrappers
  import opened XmlEvents

  const NAMESPACE: string := "jabber:iq:register"
  const INSTRUCTIONS: string := "instructions"
  /** IQ.QUERY_ELEMENT. */
  const QUERY_ELEMENT: string := "query"

  /**
   * An extension element, kept as the events it spans from its start tag to
   * its end tag; the provider that turns them into an object is not part of
   * this model.
   */
  datatype Extension = Extension(events: seq<Event>)

  /** Registration: the instructions (None for null), the field map and the extensions. */
  datatype Registration = Registration(instruction: Option<string>, fields: map<string, string>, extensions: seq<Extension>)

  /** The value of a field: the character data right after its start tag, or "" if there is none. */
  function FieldValue(events: seq<Event>, at: nat): string {
    if EventAt(events, at).TextCharacters? then EventAt(events, at).text else ""
  }

  /** Nothing gathered yet: no instructions, no fields, no extensions. */
  const EMPTY: Registration := Registration(None, map[], [])

  /** A `<name>value</name>` child in the register namespace: `instructions` sets the instructions, any other name a field. */
  function Put(acc: Registration, name: string, value: string): (r: Registration)
    ensures r.extensions == acc.extensions
    ensures name != INSTRUCTIONS ==> r.instruction == acc.instruction && r.fields.Keys == acc.fields.Keys + {name}
                                     && r.fields[name] == value
                                     && forall k :: k in acc.fields && k != name ==> r.fields[k] == acc.fields[k]
    ensures name == INSTRUCTIONS ==> r.instruction == Some(value) && r.fields == acc.fields
  {
    if name != INSTRUCTIONS then acc.(fields := acc.fields[name := value]) else acc.(instruction := Some(value))
  }

  /**
   * The loop of parse from cursor `cur`, with what it has gathered so far. It
   * ends on the first end tag named `query`.
   */
  function QueryContent(events: seq<Event>, cur: nat, acc: Registration): (r: Result<Parsed<Registration>, ParseError>)
    ensures r.Ok? ==> cur < r.value.at < |events| && events[r.value.at] == EndElement(QUERY_ELEMENT)
    decreases |events| - cur
  {
    if cur >= |events| then Err(PrematureEnd)
    else
      match EventAt(events, cur + 1)
      case StartElement(name, namespace, _) =>
        if namespace == NAMESPACE then
          if cur + 1 >= |events| then Err(PrematureEnd)
          else QueryContent(events, cur + 2, Put(acc, name, FieldValue(events, cur + 2)))
        else
          (match ElementEnd(events, cur + 1, 0)
           case Err(e) => Err(e)
           case Ok(end) => QueryContent(events, end, acc.(extensions := acc.extensions + [Extension(events[cur + 1..end + 1])])))
      case EndElement(name) =>
        if name == QUERY_ELEMENT then Ok(Parsed(acc, cur + 1))
        else QueryContent(events, cur + 1, acc)
      case _ => QueryContent(events, cur + 1, acc)
  }

  /** PacketParserUtils.addExtensionElement: reads the element the cursor stands on up to its end tag. */
  method AddExtensionElement(extensions: seq<Extension>, events: seq<Event>, pos: nat)
    returns (r: Result<(seq<Extension>, nat), ParseError>)
    ensures ElementEnd(events, pos, 0).Err? ==> r == Err(ElementEnd(events, pos, 0).error)
    ensures ElementEnd(events, pos, 0).Ok? ==>
              var end := ElementEnd(events, pos, 0).value;
              r == Ok((extensions + [Extension(events[pos..end + 1])], end))
  {
    var cur := pos;
    var depth: nat := 0;
    while true
      invariant ElementEnd(events, cur, depth) == ElementEnd(events, pos, 0)
      decreases |events| - cur
    {
      if cur >= |events| {
        return Err(PrematureEnd);
      }
      cur := cur + 1;
      var eventType := EventAt(events, cur);
      if eventType.StartElement? {
        depth := depth + 1;
      } else if eventType.EndElement? {
        if depth == 0 {
          return Ok((extensions + [Extension(events[pos..cur + 1])], cur));
        }
        depth := depth - 1;
      }
    }
  }

  /**
   * RegistrationProvider.parse, the cursor standing on the `<query/>` start
   * tag; it ends on the matching `</query>`.
   */
  method Parse(events: seq<Event>, pos: nat) returns (r: Result<Parsed<Registration>, ParseError>)
    ensures r == QueryContent(events, pos, EMPTY)
  {
    var instruction: Option<string> := None;
    var fields: map<string, string> := map[];
    var packetExtensions: seq<Extension> := [];
    var cur := pos;
    while true
      invariant QueryContent(events, cur, Registration(instruction, fields, packetExtensions)) == QueryContent(events, pos, EMPTY)
      decreases |events| - cur
    {
      if cur >= |events| {
        return Err(PrematureEnd);
      }
      cur := cur + 1;
      var eventType := EventAt(events, cur);
      if eventType.StartElement? {
        if eventType.namespace == NAMESPACE {
          var name := eventType.name;
          var value := "";
          if cur >= |events| {
            return Err(PrematureEnd);
          }
          cur := cur + 1;
          if EventAt(events, cur).TextCharacters? {
            value := EventAt(events, cur).text;
          }
          if name != INSTRUCTIONS {
            fields := fields[name := value];
          } else {
            instruction := Some(value);
          }
        } else {
          var added := AddExtensionElement(packetExtensions, events, cur);
          match added {
            case Err(e) => return Err(e);
            case Ok(result) => packetExtensions, cur := result.0, result.1;
          }
        }
      } else if eventType.EndElement? {
        if eventType.name == QUERY_ELEMENT {
          break;
        }
      }
    }
    r := Ok(Parsed(Registration(instruction, fields, packetExtensions), cur));
  }
}
