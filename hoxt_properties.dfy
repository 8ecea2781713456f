/**
 * What the `<data/>` decoder of HTTP over XMPP promises, proved about the
 * specification functions that its parsing methods are equal to.
 */
module HttpOverXmppProperties {
  import opened Wrappers
  import opened XmlEvents
  import opened HttpOverXmppProvider

  // ---------------------------------------------------------------------------
  // parseText / parseBase64

  /** Every event from `lo` up to (not including) `hi` is character data. */
  predicate AllText(events: seq<Event>, lo: nat, hi: nat) {
    forall k :: lo <= k < hi ==> EventAt(events, k).TextCharacters?
  }

  /**
   * Character data followed by the element's own end tag is accepted; the
   * value is the LAST piece of character data, or the initial value if there
   * was none.
   */
  lemma {:induction false} CharacterDataAccepts(events: seq<Event>, cur: nat, element: string, text: Option<string>, end: nat)
    requires cur < end && AllText(events, cur + 1, end) && EventAt(events, end) == EndElement(element)
    ensures end < |events|
    ensures CharacterData(events, cur, element, text)
            == Ok(Parsed(if end == cur + 1 then text else Some(EventAt(events, end - 1).text), end))
    decreases end - cur
  {
    if end > cur + 1 {
      CharacterDataAccepts(events, cur + 1, element, Some(EventAt(events, cur + 1).text), end);
    }
  }

  /**
   * The first event after the character data that is not the element's own end
   * tag is rejected: another end tag, a start tag (mixed content) or any other
   * event all throw IllegalArgumentException.
   */
  lemma {:induction false} CharacterDataRejects(events: seq<Event>, cur: nat, element: string, text: Option<string>, stop: nat)
    requires cur < stop <= |events| && AllText(events, cur + 1, stop)
    requires !EventAt(events, stop).TextCharacters? && EventAt(events, stop) != EndElement(element)
    ensures CharacterData(events, cur, element, text)
            == Err(if EventAt(events, stop).EndElement? then UnexpectedEndTag(EventAt(events, stop).name)
                   else UnexpectedEvent(EventAt(events, stop)))
    ensures CharacterData(events, cur, element, text).error.IsIllegalArgument()
    decreases stop - cur
  {
    if stop > cur + 1 {
      CharacterDataRejects(events, cur + 1, element, Some(EventAt(events, cur + 1).text), stop);
    }
  }

  // ---------------------------------------------------------------------------
  // parseChunkedBase64 / parseIbb

  /** The element must be empty: only its own end tag may follow the start tag. */
  lemma EmptyElementOnlyEndTag(events: seq<Event>, pos: nat, element: string)
    requires pos < |events|
    ensures EmptyElement(events, pos, element).Ok? <==> EventAt(events, pos + 1) == EndElement(element)
    ensures EmptyElement(events, pos, element).Err? ==> EmptyElement(events, pos, element).error.IsIllegalArgument()
  {
  }

  /**
   * chunkedBase64 and ibb carry the `streamId` and `sid` attribute (no
   * namespace) of their start tag, whatever other attributes it has; null
   * when the start tag has no such attribute.
   */
  lemma HandleAttributes(events: seq<Event>, pos: nat, esc: XmlEscaping)
    requires pos + 1 < |events| && events[pos].StartElement?
    ensures var attributes := events[pos].attributes;
            events[pos].name == ELEMENT_CHUNKED_BASE_64 && events[pos + 1] == EndElement(ELEMENT_CHUNKED_BASE_64) ==>
              && ChildContent(events, pos, ELEMENT_CHUNKED_BASE_64, esc)
                 == Ok(Parsed(ChunkedBase64(AttributeValue(attributes, "", ATTRIBUTE_STREAM_ID)), pos + 1))
              && ((forall i :: 0 <= i < |attributes| ==> !(attributes[i].namespace == "" && attributes[i].name == ATTRIBUTE_STREAM_ID))
                  ==> ChildContent(events, pos, ELEMENT_CHUNKED_BASE_64, esc) == Ok(Parsed(ChunkedBase64(None), pos + 1)))
    ensures var attributes := events[pos].attributes;
            events[pos].name == ELEMENT_IBB && events[pos + 1] == EndElement(ELEMENT_IBB) ==>
              && ChildContent(events, pos, ELEMENT_IBB, esc) == Ok(Parsed(Ibb(AttributeValue(attributes, "", ATTRIBUTE_SID)), pos + 1))
              && ((forall i :: 0 <= i < |attributes| ==> !(attributes[i].namespace == "" && attributes[i].name == ATTRIBUTE_SID))
                  ==> ChildContent(events, pos, ELEMENT_IBB, esc) == Ok(Parsed(Ibb(None), pos + 1)))
  {
  }

  // ---------------------------------------------------------------------------
  // appendXmlAttributes

  /** Attributes are written in index order: the text for `a + b` is that of `a`, then that of `b`. */
  lemma {:induction false} AttributesXmlConcat(a: seq<Attribute>, b: seq<Attribute>, esc: XmlEscaping)
    ensures AttributesXml(a + b, esc) == AttributesXml(a, esc) + AttributesXml(b, esc)
    decreases |b|
  {
    if b == [] {
      assert a + b == a;
    } else {
      var b' := b[..|b| - 1];
      assert (a + b)[..|a + b| - 1] == a + b';
      assert (a + b)[|a + b| - 1] == b[|b| - 1];
      AttributesXmlConcat(a, b', esc);
    }
  }

  /** Namespaces are ignored: attributes with the same names and values give the same text. */
  lemma {:induction false} AttributesXmlIgnoresNamespaces(a: seq<Attribute>, b: seq<Attribute>, esc: XmlEscaping)
    requires |a| == |b|
    requires forall i :: 0 <= i < |a| ==> a[i].name == b[i].name && a[i].value == b[i].value
    ensures AttributesXml(a, esc) == AttributesXml(b, esc)
    decreases |a|
  {
    if a != [] {
      AttributesXmlIgnoresNamespaces(a[..|a| - 1], b[..|b| - 1], esc);
    }
  }

  // ---------------------------------------------------------------------------
  // parseXml

  /**
   * The serialisation parseXml promises: an element without content as
   * `<name attrs/>`, otherwise `<name attrs>content</name>`, text escaped.
   */
  function Render(n: XmlNode, esc: XmlEscaping): string
    decreases n
  {
    match n
    case CharData(t) => esc.forText(t)
    case Element(name, _, attributes, children) =>
      "<" + name + AttributesXml(attributes, esc)
      + (if children == [] then "/>" else ">" + RenderAll(children, esc) + "</" + name + ">")
  }

  function RenderAll(ns: seq<XmlNode>, esc: XmlEscaping): string
    decreases ns
  {
    if ns == [] then "" else Render(ns[0], esc) + RenderAll(ns[1..], esc)
  }

  /** No element of the tree is itself named `xml` (its end tag would end the payload). */
  predicate NoXmlElement(n: XmlNode)
    decreases n
  {
    match n
    case CharData(_) => true
    case Element(name, _, _, children) =>
      name != ELEMENT_XML && NoXmlElements(children)
  }

  predicate NoXmlElements(ns: seq<XmlNode>)
    decreases ns
  {
    ns == [] || (NoXmlElement(ns[0]) && NoXmlElements(ns[1..]))
  }

  /** One step of parseXml on a start tag: the open start tag is closed, the new one opened as `res`. */
  lemma XmlStepStart(events: seq<Event>, cur: nat, out: string, startClosed: bool, esc: XmlEscaping, res: string)
    requires cur + 1 < |events| && events[cur + 1].StartElement?
    requires res == out + CloseStart(startClosed) + "<" + events[cur + 1].name + AttributesXml(events[cur + 1].attributes, esc)
    ensures XmlContent(events, cur, out, startClosed, esc) == XmlContent(events, cur + 1, res, false, esc)
  {
  }

  /** One step of parseXml on character data: escaped text after the closed start tag. */
  lemma XmlStepText(events: seq<Event>, cur: nat, out: string, startClosed: bool, esc: XmlEscaping, res: string)
    requires cur + 1 < |events| && events[cur + 1].TextCharacters?
    requires res == out + CloseStart(startClosed) + esc.forText(events[cur + 1].text)
    ensures XmlContent(events, cur, out, startClosed, esc) == XmlContent(events, cur + 1, res, true, esc)
  {
  }

  /** One step of parseXml on an end tag other than `</xml>`: the end tag, or `/>` for an empty element. */
  lemma XmlStepEnd(events: seq<Event>, cur: nat, out: string, startClosed: bool, esc: XmlEscaping, res: string)
    requires cur + 1 < |events| && events[cur + 1].EndElement? && events[cur + 1].name != ELEMENT_XML
    requires res == if startClosed then out + "</" + events[cur + 1].name + ">" else out + "/>"
    ensures XmlContent(events, cur, out, startClosed, esc) == XmlContent(events, cur + 1, res, true, esc)
  {
  }

  /** parseXml ends on `</xml>` with what it has written so far. */
  lemma XmlStepFinish(events: seq<Event>, cur: nat, out: string, startClosed: bool, esc: XmlEscaping)
    requires cur + 1 < |events| && events[cur + 1] == EndElement(ELEMENT_XML)
    ensures XmlContent(events, cur, out, startClosed, esc) == Ok(Parsed(out, cur + 1))
  {
  }

  /** The rendering of an element after the open start tag is closed, spelled out for the steps of parseXml. */
  lemma ElementRendering(n: XmlNode, out: string, startClosed: bool, esc: XmlEscaping)
    requires n.Element?
    ensures var out1 := out + CloseStart(startClosed) + "<" + n.name + AttributesXml(n.attributes, esc);
            && (n.children == [] ==> out + CloseStart(startClosed) + Render(n, esc) == out1 + "/>")
            && (n.children != [] ==> out + CloseStart(startClosed) + Render(n, esc)
                                     == out1 + CloseStart(false) + RenderAll(n.children, esc) + "</" + n.name + ">")
  {
  }

  /**
   * parseXml over the events of one tree: the cursor moves past them (to `at`)
   * and the tree's rendering is written after the open start tag is closed
   * (giving `res`).
   */
  lemma {:induction false} NodeContent(events: seq<Event>, cur: nat, out: string, startClosed: bool, n: XmlNode, esc: XmlEscaping,
                                       at: nat, res: string)
    requires NoXmlElement(n)
    requires Window(events, cur + 1, NodeEvents(n))
    requires at == cur + |NodeEvents(n)| && res == out + CloseStart(startClosed) + Render(n, esc)
    ensures XmlContent(events, cur, out, startClosed, esc) == XmlContent(events, at, res, true, esc)
    decreases n, 2
  {
    if n.CharData? {
      assert NodeEvents(n) == [TextCharacters(n.text)];
      XmlStepText(events, cur, out, startClosed, esc, res);
    } else {
      ElementEvents(n);
      ElementRendering(n, out, startClosed, esc);
      WindowRest(events, cur + 1, NodeEvents(n), StartElement(n.name, n.namespace, n.attributes),
                 NodesEvents(n.children) + [EndElement(n.name)], cur + 2);
      var out1 := out + CloseStart(startClosed) + "<" + n.name + AttributesXml(n.attributes, esc);
      XmlStepStart(events, cur, out, startClosed, esc, out1);
      WindowParts(events, cur + 2, NodesEvents(n.children) + [EndElement(n.name)], NodesEvents(n.children), [EndElement(n.name)],
                  cur + 1 + |NodesEvents(n.children)| + 1);
      WindowOne(events, cur + 1 + |NodesEvents(n.children)| + 1, EndElement(n.name));
      if n.children == [] {
        XmlStepEnd(events, cur + 1, out1, false, esc, res);
      } else {
        var mid := out1 + CloseStart(false) + RenderAll(n.children, esc);
        NodesContent(events, cur + 1, out1, false, n.children, esc, cur + 1 + |NodesEvents(n.children)|, mid);
        XmlStepEnd(events, cur + 1 + |NodesEvents(n.children)|, mid, true, esc, res);
      }
    }
  }

  /** parseXml over the events of a non-empty list of trees, as NodeContent. */
  lemma {:induction false} NodesContent(events: seq<Event>, cur: nat, out: string, startClosed: bool, ns: seq<XmlNode>, esc: XmlEscaping,
                                        at: nat, res: string)
    requires ns != [] && NoXmlElements(ns)
    requires Window(events, cur + 1, NodesEvents(ns))
    requires at == cur + |NodesEvents(ns)| && res == out + CloseStart(startClosed) + RenderAll(ns, esc)
    ensures XmlContent(events, cur, out, startClosed, esc) == XmlContent(events, at, res, true, esc)
    decreases ns, 1
  {
    if |ns| == 1 {
      NodesContentOne(events, cur, out, startClosed, ns, esc, at, res);
    } else {
      NodesContentCons(events, cur, out, startClosed, ns, esc, at, res);
    }
  }

  /** NodesContent for a single tree. */
  lemma {:induction false} NodesContentOne(events: seq<Event>, cur: nat, out: string, startClosed: bool, ns: seq<XmlNode>, esc: XmlEscaping,
                                           at: nat, res: string)
    requires |ns| == 1 && NoXmlElements(ns)
    requires Window(events, cur + 1, NodesEvents(ns))
    requires at == cur + |NodesEvents(ns)| && res == out + CloseStart(startClosed) + RenderAll(ns, esc)
    ensures XmlContent(events, cur, out, startClosed, esc) == XmlContent(events, at, res, true, esc)
    decreases ns, 0
  {
    NodesShapeOne(ns, out, startClosed, esc);
    NodeContent(events, cur, out, startClosed, ns[0], esc, at, res);
  }

  /** NodesContent for two or more trees: the first tree, then the rest. */
  lemma {:induction false} NodesContentCons(events: seq<Event>, cur: nat, out: string, startClosed: bool, ns: seq<XmlNode>, esc: XmlEscaping,
                                            at: nat, res: string)
    requires |ns| > 1 && NoXmlElements(ns)
    requires Window(events, cur + 1, NodesEvents(ns))
    requires at == cur + |NodesEvents(ns)| && res == out + CloseStart(startClosed) + RenderAll(ns, esc)
    ensures XmlContent(events, cur, out, startClosed, esc) == XmlContent(events, at, res, true, esc)
    decreases ns, 0
  {
    NodesShape(ns, out, startClosed, esc);
    WindowParts(events, cur + 1, NodesEvents(ns), NodeEvents(ns[0]), NodesEvents(ns[1..]), cur + |NodeEvents(ns[0])| + 1);
    NodeContent(events, cur, out, startClosed, ns[0], esc,
                cur + |NodeEvents(ns[0])|, out + CloseStart(startClosed) + Render(ns[0], esc));
    NodesContent(events, cur + |NodeEvents(ns[0])|, out + CloseStart(startClosed) + Render(ns[0], esc), true, ns[1..], esc, at, res);
  }

  /** The events and the rendering of a one-tree list are those of the tree. */
  lemma NodesShapeOne(ns: seq<XmlNode>, out: string, startClosed: bool, esc: XmlEscaping)
    requires |ns| == 1 && NoXmlElements(ns)
    ensures NoXmlElement(ns[0])
    ensures NodesEvents(ns) == NodeEvents(ns[0])
    ensures out + CloseStart(startClosed) + RenderAll(ns, esc) == out + CloseStart(startClosed) + Render(ns[0], esc)
  {
    assert ns[1..] == [];
  }

  /** The events and the rendering of a tree list: its first tree's, then the rest's. */
  lemma NodesShape(ns: seq<XmlNode>, out: string, startClosed: bool, esc: XmlEscaping)
    requires ns != [] && NoXmlElements(ns)
    ensures NoXmlElement(ns[0]) && NoXmlElements(ns[1..])
    ensures NodesEvents(ns) == NodeEvents(ns[0]) + NodesEvents(ns[1..])
    ensures out + CloseStart(startClosed) + RenderAll(ns, esc)
            == out + CloseStart(startClosed) + Render(ns[0], esc) + CloseStart(true) + RenderAll(ns[1..], esc)
  {
  }

  /**
   * parseXml round trip: the events of a tree list followed by `</xml>` are
   * re-serialised as the tree list's rendering, and the cursor ends on `</xml>`,
   * which is not itself written.
   */
  lemma {:induction false} XmlPayloadRendered(events: seq<Event>, pos: nat, ns: seq<XmlNode>, esc: XmlEscaping)
    requires NoXmlElements(ns)
    requires Window(events, pos + 1, NodesEvents(ns) + [EndElement(ELEMENT_XML)])
    ensures ChildContent(events, pos, ELEMENT_XML, esc) == Ok(Parsed(Xml(RenderAll(ns, esc)), pos + |NodesEvents(ns)| + 1))
  {
    var inner := NodesEvents(ns);
    WindowSplit(events, pos + 1, inner, [EndElement(ELEMENT_XML)]);
    WindowAt(events, pos + 1 + |inner|, [EndElement(ELEMENT_XML)], 0);
    XmlStepFinish(events, pos + |inner|, RenderAll(ns, esc), true, esc);
    if ns != [] {
      assert RenderAll(ns, esc) == "" + CloseStart(true) + RenderAll(ns, esc);
      NodesContent(events, pos, "", true, ns, esc, pos + |inner|, RenderAll(ns, esc));
    }
  }

  /** parseXml stops at the FIRST `</xml>`, even one closing a nested `<xml>` element. */
  lemma NestedXmlEndsEarly(attributes: seq<Attribute>, esc: XmlEscaping)
    ensures var events := [StartElement(ELEMENT_XML, "", []), StartElement(ELEMENT_XML, "", attributes),
                           EndElement(ELEMENT_XML), EndElement(ELEMENT_XML)];
            ChildContent(events, 0, ELEMENT_XML, esc) == Ok(Parsed(Xml("<xml" + AttributesXml(attributes, esc)), 2))
  {
    var events := [StartElement(ELEMENT_XML, "", []), StartElement(ELEMENT_XML, "", attributes),
                   EndElement(ELEMENT_XML), EndElement(ELEMENT_XML)];
    var out := "" + CloseStart(true) + "<" + ELEMENT_XML + AttributesXml(attributes, esc);
    XmlStepStart(events, 0, "", true, esc, out);
    assert XmlContent(events, 1, out, false, esc) == Ok(Parsed(out, 2));
    assert out == "<xml" + AttributesXml(attributes, esc);
  }

  // ---------------------------------------------------------------------------
  // parseData

  /** A well-formed payload element, as the sender writes it. */
  datatype Payload =
    | TextPayload(text: Option<string>)
    | Base64Payload(text: Option<string>)
    | ChunkedBase64Payload(streamId: string)
    | XmlPayload(nodes: seq<XmlNode>)
    | IbbPayload(sid: string)

  function PayloadName(p: Payload): (name: string)
    ensures IsDecodedChild(name)
  {
    match p
    case TextPayload(_) => ELEMENT_TEXT
    case Base64Payload(_) => ELEMENT_BASE_64
    case ChunkedBase64Payload(_) => ELEMENT_CHUNKED_BASE_64
    case XmlPayload(_) => ELEMENT_XML
    case IbbPayload(_) => ELEMENT_IBB
  }

  function CharacterEvents(text: Option<string>): seq<Event> {
    if text.Some? then [TextCharacters(text.value)] else []
  }

  /** The attributes a sender puts on a payload's start tag. */
  function PayloadAttributes(p: Payload): seq<Attribute> {
    match p
    case ChunkedBase64Payload(id) => [Attribute("", ATTRIBUTE_STREAM_ID, id)]
    case IbbPayload(sid) => [Attribute("", ATTRIBUTE_SID, sid)]
    case _ => []
  }

  /** The events between a payload's start and end tag. */
  function PayloadContent(p: Payload): seq<Event> {
    match p
    case TextPayload(t) => CharacterEvents(t)
    case Base64Payload(t) => CharacterEvents(t)
    case XmlPayload(nodes) => NodesEvents(nodes)
    case _ => []
  }

  function PayloadEvents(p: Payload): seq<Event> {
    [StartElement(PayloadName(p), "", PayloadAttributes(p))] + PayloadContent(p) + [EndElement(PayloadName(p))]
  }

  /** What a sender writes between `<data>` and `</data>`: payload elements and the whitespace between them. */
  datatype DataItem =
    | PayloadItem(payload: Payload)
    | Whitespace(text: string)

  function ItemEvents(it: DataItem): seq<Event> {
    match it
    case PayloadItem(p) => PayloadEvents(p)
    case Whitespace(t) => [TextCharacters(t)]
  }

  function ItemsEvents(items: seq<DataItem>): seq<Event> {
    if items == [] then [] else ItemEvents(items[0]) + ItemsEvents(items[1..])
  }

  /** The payload elements among the items, in document order. */
  function Payloads(items: seq<DataItem>): seq<Payload> {
    if items == [] then []
    else (if items[0].PayloadItem? then [items[0].payload] else []) + Payloads(items[1..])
  }

  /** What the decoder should yield for a payload. */
  function Decoded(p: Payload, esc: XmlEscaping): DataChild {
    match p
    case TextPayload(t) => Text(t)
    case Base64Payload(t) => Base64(t)
    case ChunkedBase64Payload(id) => ChunkedBase64(Some(id))
    case XmlPayload(nodes) => Xml(RenderAll(nodes, esc))
    case IbbPayload(sid) => Ibb(Some(sid))
  }

  predicate WellFormedPayload(p: Payload) {
    p.XmlPayload? ==> NoXmlElements(p.nodes)
  }

  predicate WellFormedItem(it: DataItem) {
    it.PayloadItem? ==> WellFormedPayload(it.payload)
  }

  predicate WellFormedItems(items: seq<DataItem>) {
    items == [] || (WellFormedItem(items[0]) && WellFormedItems(items[1..]))
  }

  /** `<text/>` and `<base64/>` with at most one piece of character data yield that text, or null. */
  lemma CharacterPayloadDecoded(events: seq<Event>, pos: nat, p: Payload, esc: XmlEscaping)
    requires (p.TextPayload? || p.Base64Payload?) && Window(events, pos, PayloadEvents(p))
    ensures ChildContent(events, pos, PayloadName(p), esc) == Ok(Parsed(Decoded(p, esc), pos + |PayloadEvents(p)| - 1))
  {
    var s := PayloadEvents(p);
    assert s == [StartElement(PayloadName(p), "", [])] + CharacterEvents(p.text) + [EndElement(PayloadName(p))];
    WindowAt(events, pos, s, |s| - 1);
    if p.text.Some? {
      WindowAt(events, pos, s, 1);
      CharacterDataAccepts(events, pos, PayloadName(p), None, pos + 2);
    } else {
      CharacterDataAccepts(events, pos, PayloadName(p), None, pos + 1);
    }
  }

  /** `<chunkedBase64/>` and `<ibb/>` yield the identifier on their start tag. */
  lemma EmptyPayloadDecoded(events: seq<Event>, pos: nat, p: Payload, esc: XmlEscaping)
    requires (p.ChunkedBase64Payload? || p.IbbPayload?) && Window(events, pos, PayloadEvents(p))
    ensures ChildContent(events, pos, PayloadName(p), esc) == Ok(Parsed(Decoded(p, esc), pos + |PayloadEvents(p)| - 1))
  {
    var s := PayloadEvents(p);
    assert s == [StartElement(PayloadName(p), "", PayloadAttributes(p)), EndElement(PayloadName(p))];
    WindowAt(events, pos, s, 0);
    WindowAt(events, pos, s, 1);
  }

  /** `<xml/>` yields the rendering of its trees. */
  lemma XmlPayloadDecoded(events: seq<Event>, pos: nat, p: Payload, esc: XmlEscaping)
    requires p.XmlPayload? && NoXmlElements(p.nodes) && Window(events, pos, PayloadEvents(p))
    ensures ChildContent(events, pos, PayloadName(p), esc) == Ok(Parsed(Decoded(p, esc), pos + |PayloadEvents(p)| - 1))
  {
    assert PayloadEvents(p) == [StartElement(ELEMENT_XML, "", [])] + (NodesEvents(p.nodes) + [EndElement(ELEMENT_XML)]);
    WindowSplit(events, pos, [StartElement(ELEMENT_XML, "", [])], NodesEvents(p.nodes) + [EndElement(ELEMENT_XML)]);
    XmlPayloadRendered(events, pos, p.nodes, esc);
  }

  /** Each payload kind is decoded by its matching parser, which stops on the payload's end tag. */
  lemma PayloadDecoded(events: seq<Event>, pos: nat, p: Payload, esc: XmlEscaping)
    requires WellFormedPayload(p) && Window(events, pos, PayloadEvents(p))
    ensures pos < |events| && events[pos].StartElement? && events[pos].name == PayloadName(p)
    ensures ChildContent(events, pos, PayloadName(p), esc) == Ok(Parsed(Decoded(p, esc), pos + |PayloadEvents(p)| - 1))
  {
    WindowAt(events, pos, PayloadEvents(p), 0);
    if p.TextPayload? || p.Base64Payload? {
      CharacterPayloadDecoded(events, pos, p, esc);
    } else if p.XmlPayload? {
      XmlPayloadDecoded(events, pos, p, esc);
    } else {
      EmptyPayloadDecoded(events, pos, p, esc);
    }
  }

  /** One step of parseData on a payload element: the decoded payload replaces the previous one. */
  lemma DataStepChild(events: seq<Event>, cur: nat, child: Option<DataChild>, esc: XmlEscaping)
    requires cur + 1 < |events| && events[cur + 1].StartElement? && IsDecodedChild(events[cur + 1].name)
    requires ChildContent(events, cur + 1, events[cur + 1].name, esc).Ok?
    ensures var p := ChildContent(events, cur + 1, events[cur + 1].name, esc).value;
            DataContent(events, cur, child, esc) == DataContent(events, p.at, Some(p.value), esc)
  {
  }

  /** parseData ends on `</data>` with the last payload decoded. */
  lemma DataStepFinish(events: seq<Event>, cur: nat, child: Option<DataChild>, esc: XmlEscaping)
    requires cur + 1 < |events| && events[cur + 1] == EndElement(ELEMENT_DATA)
    ensures DataContent(events, cur, child, esc) == Ok(Parsed(Data(child), cur + 1))
  {
  }

  /** parseData on a start tag that is not a payload element. */
  lemma DataStepReject(events: seq<Event>, cur: nat, child: Option<DataChild>, esc: XmlEscaping)
    requires cur + 1 < |events| && events[cur + 1].StartElement? && !IsDecodedChild(events[cur + 1].name)
    ensures var name := events[cur + 1].name;
            DataContent(events, cur, child, esc)
            == Err(if name == ELEMENT_SIPUB || name == ELEMENT_JINGLE then NotSupportedYet(name) else UnsupportedChildTag(name))
  {
  }

  /** parseData passes over character data between payload elements. */
  lemma DataStepText(events: seq<Event>, cur: nat, child: Option<DataChild>, esc: XmlEscaping)
    requires cur + 1 < |events| && events[cur + 1].TextCharacters?
    ensures DataContent(events, cur, child, esc) == DataContent(events, cur + 1, child, esc)
  {
  }

  /** The payload parseData holds after one item, having held `child` before. */
  function ItemStep(child: Option<DataChild>, it: DataItem, esc: XmlEscaping): Option<DataChild> {
    if it.PayloadItem? then Some(Decoded(it.payload, esc)) else child
  }

  /** The payload parseData holds after decoding `items`, having held `child` before. */
  function LastDecoded(child: Option<DataChild>, items: seq<DataItem>, esc: XmlEscaping): Option<DataChild>
    decreases items
  {
    if items == [] then child else LastDecoded(ItemStep(child, items[0], esc), items[1..], esc)
  }

  /** Only the last payload decoded is kept; whitespace changes nothing. */
  lemma {:induction false} LastDecodedIsLast(child: Option<DataChild>, items: seq<DataItem>, esc: XmlEscaping)
    ensures var ps := Payloads(items);
            LastDecoded(child, items, esc) == if ps == [] then child else Some(Decoded(ps[|ps| - 1], esc))
    decreases |items|
  {
    if items != [] {
      var next := ItemStep(child, items[0], esc);
      LastDecodedIsLast(next, items[1..], esc);
      var head := if items[0].PayloadItem? then [items[0].payload] else [];
      var ps, rest := Payloads(items), Payloads(items[1..]);
      assert ps == head + rest;
      if rest != [] {
        assert ps[|ps| - 1] == rest[|rest| - 1];
      }
    }
  }

  /** parseData over one well-formed payload element, the cursor ending at `at`. */
  lemma DataStepPayload(events: seq<Event>, cur: nat, child: Option<DataChild>, p: Payload, esc: XmlEscaping, at: nat)
    requires WellFormedPayload(p) && Window(events, cur + 1, PayloadEvents(p))
    requires at == cur + |PayloadEvents(p)|
    ensures DataContent(events, cur, child, esc) == DataContent(events, at, Some(Decoded(p, esc)), esc)
  {
    PayloadDecoded(events, cur + 1, p, esc);
    DataStepChild(events, cur, child, esc);
  }

  /** parseData over one item, the cursor ending at `at`. */
  lemma DataStepItem(events: seq<Event>, cur: nat, child: Option<DataChild>, it: DataItem, esc: XmlEscaping, at: nat)
    requires WellFormedItem(it) && Window(events, cur + 1, ItemEvents(it))
    requires at == cur + |ItemEvents(it)|
    ensures DataContent(events, cur, child, esc) == DataContent(events, at, ItemStep(child, it, esc), esc)
  {
    if it.PayloadItem? {
      DataStepPayload(events, cur, child, it.payload, esc, at);
    } else {
      WindowOne(events, cur + 1, TextCharacters(it.text));
      DataStepText(events, cur, child, esc);
    }
  }

  /** The events of a non-empty item list: its first item's, then the rest's. */
  lemma ItemsEventsCons(events: seq<Event>, cur: nat, items: seq<DataItem>, mid: nat)
    requires items != [] && Window(events, cur + 1, ItemsEvents(items)) && mid == cur + |ItemEvents(items[0])|
    ensures Window(events, cur + 1, ItemEvents(items[0]))
    ensures Window(events, mid + 1, ItemsEvents(items[1..]))
    ensures |ItemsEvents(items)| == |ItemEvents(items[0])| + |ItemsEvents(items[1..])|
  {
    ItemsEventsUnfold(items);
    WindowParts(events, cur + 1, ItemsEvents(items), ItemEvents(items[0]), ItemsEvents(items[1..]), mid + 1);
  }

  lemma ItemsEventsUnfold(items: seq<DataItem>)
    requires items != []
    ensures ItemsEvents(items) == ItemEvents(items[0]) + ItemsEvents(items[1..])
  {
  }

  /** Walking over a sequence of items decodes each payload in turn; the cursor ends at `at`, holding `last`. */
  lemma {:induction false} DataContentItems(events: seq<Event>, cur: nat, child: Option<DataChild>, items: seq<DataItem>,
                                            esc: XmlEscaping, at: nat, last: Option<DataChild>)
    requires WellFormedItems(items)
    requires Window(events, cur + 1, ItemsEvents(items))
    requires at == cur + |ItemsEvents(items)| && last == LastDecoded(child, items, esc)
    ensures DataContent(events, cur, child, esc) == DataContent(events, at, last, esc)
    decreases items, 1
  {
    if items != [] {
      DataContentItemsCons(events, cur, child, items, esc, at, last);
    }
  }

  /** DataContentItems for a non-empty list: the first item, then the rest. */
  lemma {:induction false} DataContentItemsCons(events: seq<Event>, cur: nat, child: Option<DataChild>, items: seq<DataItem>,
                                                esc: XmlEscaping, at: nat, last: Option<DataChild>)
    requires items != [] && WellFormedItems(items)
    requires Window(events, cur + 1, ItemsEvents(items))
    requires at == cur + |ItemsEvents(items)| && last == LastDecoded(child, items, esc)
    ensures DataContent(events, cur, child, esc) == DataContent(events, at, last, esc)
    decreases items, 0
  {
    var mid := cur + |ItemEvents(items[0])|;
    ItemsEventsCons(events, cur, items, mid);
    DataStepItem(events, cur, child, items[0], esc, mid);
    DataContentItems(events, mid, ItemStep(child, items[0], esc), items[1..], esc, at, last);
  }

  /**
   * parseData round trip: `<data>` followed by well-formed payloads, with or
   * without whitespace between them, and `</data>` yields a Data wrapping the
   * last payload decoded (null for none), with the cursor on `</data>`.
   */
  lemma {:induction false} DataDecoded(events: seq<Event>, pos: nat, items: seq<DataItem>, esc: XmlEscaping)
    requires EventAt(events, pos).StartElement?
    requires WellFormedItems(items)
    requires Window(events, pos + 1, ItemsEvents(items) + [EndElement(ELEMENT_DATA)])
    ensures var ps := Payloads(items);
            DataElement(events, pos, esc)
            == Ok(Parsed(Some(Data(if ps == [] then None else Some(Decoded(ps[|ps| - 1], esc)))),
                         pos + |ItemsEvents(items)| + 1))
  {
    var at := pos + |ItemsEvents(items)|;
    WindowThen(events, pos + 1, ItemsEvents(items), EndElement(ELEMENT_DATA), at + 1);
    DataContentItems(events, pos, None, items, esc, at, LastDecoded(None, items, esc));
    LastDecodedIsLast(None, items, esc);
    DataStepFinish(events, at, LastDecoded(None, items, esc), esc);
  }

  /**
   * A child that is none of the five payload kinds ends the decoding: `sipub`
   * and `jingle` with UnsupportedOperationException, any other name with
   * IllegalArgumentException.
   */
  lemma {:induction false} DataRejectsChild(events: seq<Event>, pos: nat, items: seq<DataItem>, name: string, namespace: string,
                                            attributes: seq<Attribute>, esc: XmlEscaping)
    requires EventAt(events, pos).StartElement? && !IsDecodedChild(name)
    requires WellFormedItems(items)
    requires Window(events, pos + 1, ItemsEvents(items) + [StartElement(name, namespace, attributes)])
    ensures DataElement(events, pos, esc)
            == Err(if name == ELEMENT_SIPUB || name == ELEMENT_JINGLE then NotSupportedYet(name) else UnsupportedChildTag(name))
  {
    var at := pos + |ItemsEvents(items)|;
    WindowThen(events, pos + 1, ItemsEvents(items), StartElement(name, namespace, attributes), at + 1);
    DataContentItems(events, pos, None, items, esc, at, LastDecoded(None, items, esc));
    DataStepReject(events, at, LastDecoded(None, items, esc), esc);
  }
}
