/**
 * The pull-parser event stream that the decoders consume.
 *
 * A stream is a sequence of events and a cursor: the index of the event the
 * parser currently stands on. The index just past the last event stands for
 * END_DOCUMENT; asking for the next event from there is the pull parser's own
 * error, modelled as `PrematureEnd`.
 */
module XmlEvents {
  import opened Wrappers

  /** An attribute of a start tag, with its namespace URI ("" for none). */
  datatype Attribute = Attribute(namespace: string, name: string, value: string)

  datatype Event =
    | StartElement(name: string, namespace: string, attributes: seq<Attribute>)
    | EndElement(name: string)
    | TextCharacters(text: string)
    /** Any other event kind the pull parser reports (comment, processing instruction, ...). */
    | OtherEvent
    | EndDocument

  /** Why a decoder stopped; each case names the exception the source throws. */
  datatype ParseError =
    /** IllegalArgumentException("unexpected end tag ..."). */
    | UnexpectedEndTag(name: string)
    /** IllegalArgumentException("unexpected eventType ..."). */
    | UnexpectedEvent(event: Event)
    /** IllegalArgumentException("unsupported child tag ..."). */
    | UnsupportedChildTag(name: string)
    /** UnsupportedOperationException("... is not supported yet"). */
    | NotSupportedYet(name: string)
    /** XmlPullParserException: next() called at END_DOCUMENT. */
    | PrematureEnd
    /** XmlPullParserException: an element that must hold only text holds something else (XML 1.0 section 3.2, mixed content). */
    | MixedContent
    /** XmlPullParserException: an end tag that does not match the open element (the XML is not well-formed). */
    | MismatchedEndTag(name: string)
    /** An error raised by a collaborator that is not part of this model. */
    | CollaboratorError(reason: string)
  {
    predicate IsIllegalArgument() {
      UnexpectedEndTag? || UnexpectedEvent? || UnsupportedChildTag?
    }
  }

  /** A decoded value together with the index of the event the parser stands on afterwards. */
  datatype Parsed<+T> = Parsed(value: T, at: nat)

  /** The event at index `i`, END_DOCUMENT once the stream is exhausted. */
  function EventAt(events: seq<Event>, i: nat): Event {
    if i < |events| then events[i] else EndDocument
  }

  /** `events` holds `s` from index `i` on. */
  predicate Window(events: seq<Event>, i: nat, s: seq<Event>)
    decreases s
  {
    if s == [] then i <= |events| else i < |events| && events[i] == s[0] && Window(events, i + 1, s[1..])
  }

  lemma {:induction false} WindowSplit(events: seq<Event>, i: nat, a: seq<Event>, b: seq<Event>)
    requires Window(events, i, a + b)
    ensures Window(events, i, a) && Window(events, i + |a|, b)
    decreases a
  {
    if a == [] {
      assert a + b == b;
    } else {
      assert (a + b)[1..] == a[1..] + b;
      WindowSplit(events, i + 1, a[1..], b);
    }
  }

  lemma {:induction false} WindowAt(events: seq<Event>, i: nat, s: seq<Event>, k: nat)
    requires Window(events, i, s) && k < |s|
    ensures i + k < |events| && events[i + k] == s[k]
    decreases k
  {
    if k > 0 {
      WindowAt(events, i + 1, s[1..], k - 1);
    }
  }

  /** `events` holds `s` from index `i` on: the slice there is `s`. */
  lemma {:induction false} WindowSlice(events: seq<Event>, i: nat, s: seq<Event>)
    requires Window(events, i, s)
    ensures i + |s| <= |events| && events[i..i + |s|] == s
    decreases s
  {
    if s != [] {
      WindowSlice(events, i + 1, s[1..]);
      assert events[i..i + |s|] == [events[i]] + events[i + 1..i + 1 + |s[1..]|];
    }
  }

  /** A window made of `a` then `b` holds `a` at its start and `b` from `j` on. */
  lemma WindowParts(events: seq<Event>, i: nat, whole: seq<Event>, a: seq<Event>, b: seq<Event>, j: nat)
    requires whole == a + b && Window(events, i, whole) && j == i + |a|
    ensures Window(events, i, a) && Window(events, j, b)
  {
    WindowSplit(events, i, a, b);
  }

  /** A window starting with `e`: the event at `i` is `e`, the rest follows from `j` on. */
  lemma WindowRest(events: seq<Event>, i: nat, whole: seq<Event>, e: Event, rest: seq<Event>, j: nat)
    requires whole == [e] + rest && Window(events, i, whole) && j == i + 1
    ensures i < |events| && events[i] == e && Window(events, j, rest)
  {
    assert whole[1..] == rest;
  }

  /** A window ending with `e`: `s` from `i` on, then `e` at `j`. */
  lemma WindowThen(events: seq<Event>, i: nat, s: seq<Event>, e: Event, j: nat)
    requires Window(events, i, s + [e]) && j == i + |s|
    ensures Window(events, i, s) && j < |events| && events[j] == e
  {
    WindowSplit(events, i, s, [e]);
  }

  /** A one-event window. */
  lemma WindowOne(events: seq<Event>, i: nat, e: Event)
    requires Window(events, i, [e])
    ensures i < |events| && events[i] == e
  {
  }

  /** An XML tree, and the events a pull parser reports for it. */
  datatype XmlNode =
    | Element(name: string, namespace: string, attributes: seq<Attribute>, children: seq<XmlNode>)
    | CharData(text: string)

  function NodeEvents(n: XmlNode): seq<Event>
    decreases n
  {
    match n
    case CharData(t) => [TextCharacters(t)]
    case Element(name, namespace, attributes, children) =>
      [StartElement(name, namespace, attributes)] + NodesEvents(children) + [EndElement(name)]
  }

  function NodesEvents(ns: seq<XmlNode>): seq<Event>
    decreases ns
  {
    if ns == [] then [] else NodeEvents(ns[0]) + NodesEvents(ns[1..])
  }

  /** The events of an element: its start tag, its children's events, its end tag. */
  lemma ElementEvents(n: XmlNode)
    requires n.Element?
    ensures NodeEvents(n) == [StartElement(n.name, n.namespace, n.attributes)] + (NodesEvents(n.children) + [EndElement(n.name)])
    ensures |NodeEvents(n)| == 1 + |NodesEvents(n.children)| + 1
  {
  }

  /**
   * The end tag that closes the element open at `depth` levels below the
   * cursor (0: the element whose start tag the cursor stands on): how far a
   * parser reads to consume one whole element.
   */
  function ElementEnd(events: seq<Event>, cur: nat, depth: nat): (r: Result<nat, ParseError>)
    ensures r.Ok? ==> cur < r.value < |events| && events[r.value].EndElement?
    decreases |events| - cur
  {
    if cur >= |events| then Err(PrematureEnd)
    else
      match EventAt(events, cur + 1)
      case StartElement(_, _, _) => ElementEnd(events, cur + 1, depth + 1)
      case EndElement(_) => if depth == 0 then Ok(cur + 1) else ElementEnd(events, cur + 1, depth - 1)
      case _ => ElementEnd(events, cur + 1, depth)
  }

  /** Skipping a whole tree keeps the element depth. */
  lemma {:induction false} NodeSkip(events: seq<Event>, cur: nat, depth: nat, n: XmlNode, at: nat)
    requires Window(events, cur + 1, NodeEvents(n)) && at == cur + |NodeEvents(n)|
    ensures ElementEnd(events, cur, depth) == ElementEnd(events, at, depth)
    decreases n, 2
  {
    if n.CharData? {
      WindowOne(events, cur + 1, TextCharacters(n.text));
    } else {
      ElementEvents(n);
      var mid := cur + 1 + |NodesEvents(n.children)|;
      WindowRest(events, cur + 1, NodeEvents(n), StartElement(n.name, n.namespace, n.attributes),
                 NodesEvents(n.children) + [EndElement(n.name)], cur + 2);
      WindowParts(events, cur + 2, NodesEvents(n.children) + [EndElement(n.name)], NodesEvents(n.children), [EndElement(n.name)],
                  mid + 1);
      WindowOne(events, mid + 1, EndElement(n.name));
      NodesSkip(events, cur + 1, depth + 1, n.children, mid);
    }
  }

  /** Skipping a sequence of trees keeps the element depth. */
  lemma {:induction false} NodesSkip(events: seq<Event>, cur: nat, depth: nat, ns: seq<XmlNode>, at: nat)
    requires Window(events, cur + 1, NodesEvents(ns)) && at == cur + |NodesEvents(ns)|
    ensures ElementEnd(events, cur, depth) == ElementEnd(events, at, depth)
    decreases ns, 1
  {
    if ns != [] {
      NodesSkipCons(events, cur, depth, ns, at);
    }
  }

  lemma {:induction false} NodesSkipCons(events: seq<Event>, cur: nat, depth: nat, ns: seq<XmlNode>, at: nat)
    requires ns != []
    requires Window(events, cur + 1, NodesEvents(ns)) && at == cur + |NodesEvents(ns)|
    ensures ElementEnd(events, cur, depth) == ElementEnd(events, at, depth)
    decreases ns, 0
  {
    var mid := cur + |NodeEvents(ns[0])|;
    WindowParts(events, cur + 1, NodesEvents(ns), NodeEvents(ns[0]), NodesEvents(ns[1..]), mid + 1);
    NodeSkip(events, cur, depth, ns[0], mid);
    NodesSkip(events, mid, depth, ns[1..], at);
  }

  /** From the start tag of an element, ElementEnd finds that element's own end tag. */
  lemma ElementExtent(events: seq<Event>, i: nat, n: XmlNode)
    requires n.Element? && Window(events, i, NodeEvents(n))
    ensures i < |events| && events[i] == StartElement(n.name, n.namespace, n.attributes)
    ensures ElementEnd(events, i, 0) == Ok(i + |NodeEvents(n)| - 1)
  {
    ElementEvents(n);
    var mid := i + |NodesEvents(n.children)|;
    WindowRest(events, i, NodeEvents(n), StartElement(n.name, n.namespace, n.attributes),
               NodesEvents(n.children) + [EndElement(n.name)], i + 1);
    WindowParts(events, i + 1, NodesEvents(n.children) + [EndElement(n.name)], NodesEvents(n.children), [EndElement(n.name)],
                mid + 1);
    WindowOne(events, mid + 1, EndElement(n.name));
    NodesSkip(events, i, 0, n.children, mid);
  }

  /** The attribute at `i` has that namespace and local name, and no earlier one has. */
  predicate FirstAttribute(attributes: seq<Attribute>, namespace: string, name: string, i: int) {
    && 0 <= i < |attributes| && attributes[i].namespace == namespace && attributes[i].name == name
    && forall j :: 0 <= j < i ==> !(attributes[j].namespace == namespace && attributes[j].name == name)
  }

  /**
   * XmlPullParser.getAttributeValue(namespace, name): the value of the first
   * attribute with that namespace and local name, or null.
   */
  function AttributeValue(attributes: seq<Attribute>, namespace: string, name: string): (r: Option<string>)
    ensures r.Some? <==> exists i :: 0 <= i < |attributes| && attributes[i].namespace == namespace && attributes[i].name == name
    ensures r.Some? ==> exists i :: FirstAttribute(attributes, namespace, name, i) && attributes[i].value == r.value
  {
    if attributes == [] then None
    else if attributes[0].namespace == namespace && attributes[0].name == name then
      assert FirstAttribute(attributes, namespace, name, 0);
      Some(attributes[0].value)
    else
      var r := AttributeValue(attributes[1..], namespace, name);
      assert forall i :: 1 <= i < |attributes| ==> attributes[i] == attributes[1..][i - 1];
      if r.Some? then
        var k :| FirstAttribute(attributes[1..], namespace, name, k) && attributes[1..][k].value == r.value;
        assert FirstAttribute(attributes, namespace, name, k + 1);
        r
      else r
  }
}
