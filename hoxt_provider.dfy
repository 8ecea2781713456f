/**
 * The `<data/>` decoder of HTTP over XMPP (XEP-0332), shared by the request and
 * response providers.
 *
 * Each parser walks the event stream from the start tag it is called on and
 * leaves the cursor on that element's end tag. Every parser is a method with a
 * loop over the cursor, proved equal to a recursive function that states, one
 * event at a time, what the loop computes; the properties of those functions
 * are proved in module HttpOverXmppProperties.
 */
module HttpOverXmppProvider {
  import opened Wrappers
  import opened XmlEvents

  const ELEMENT_DATA := "data"
  const ELEMENT_TEXT := "text"
  const ELEMENT_BASE_64 := "base64"
  const ELEMENT_CHUNKED_BASE_64 := "chunkedBase64"
  const ELEMENT_XML := "xml"
  const ELEMENT_IBB := "ibb"
  const ELEMENT_SIPUB := "sipub"
  const ELEMENT_JINGLE := "jingle"
  const ATTRIBUTE_STREAM_ID := "streamId"
  const ATTRIBUTE_SID := "sid"
  /** The element name of the SHIM headers extension (XEP-0131). */
  const ELEMENT_HEADERS := "headers"

  /** The five payload kinds a `<data/>` element may carry. */
  datatype DataChild =
    | Text(text: Option<string>)
    | Base64(text: Option<string>)
    | ChunkedBase64(streamId: Option<string>)
    | Xml(xml: string)
    | Ibb(sid: Option<string>)

  /** AbstractHttpOverXmpp.Data: wraps the payload, null when `<data/>` had no child. */
  datatype Data = Data(child: Option<DataChild>)

  /** StringUtils.escapeForXml and escapeForXmlText, which are not part of this model. */
  datatype XmlEscaping = XmlEscaping(forAttribute: string -> string, forText: string -> string)

  predicate IsDecodedChild(name: string) {
    name == ELEMENT_TEXT || name == ELEMENT_BASE_64 || name == ELEMENT_CHUNKED_BASE_64
    || name == ELEMENT_XML || name == ELEMENT_IBB
  }

  // ---------------------------------------------------------------------------
  // parseHeaders

  /**
   * parseHeaders: advances once; if that event starts a `<headers/>` element it
   * is handed to HeadersProvider (a parameter here) and the cursor advances past
   * its end tag, otherwise the result is null.
   */
  function ParseHeaders<H>(events: seq<Event>, pos: nat,
                           parseHeadersElement: (seq<Event>, nat) -> Result<Parsed<H>, ParseError>)
    : (r: Result<Parsed<Option<H>>, ParseError>)
    ensures pos >= |events| ==> r == Err(PrematureEnd)
    ensures pos < |events| && !(EventAt(events, pos + 1).StartElement? && EventAt(events, pos + 1).name == ELEMENT_HEADERS)
            ==> r == Ok(Parsed(None, pos + 1))
    ensures r.Ok? && r.value.value.Some? ==>
              && EventAt(events, pos + 1).StartElement? && EventAt(events, pos + 1).name == ELEMENT_HEADERS
              && parseHeadersElement(events, pos + 1).Ok?
              && r.value == Parsed(Some(parseHeadersElement(events, pos + 1).value.value),
                                   parseHeadersElement(events, pos + 1).value.at + 1)
    ensures pos < |events| && EventAt(events, pos + 1).StartElement? && EventAt(events, pos + 1).name == ELEMENT_HEADERS ==>
              && (parseHeadersElement(events, pos + 1).Err? ==> r == Err(parseHeadersElement(events, pos + 1).error))
              && (parseHeadersElement(events, pos + 1).Ok? && parseHeadersElement(events, pos + 1).value.at < |events| ==>
                    r == Ok(Parsed(Some(parseHeadersElement(events, pos + 1).value.value),
                                   parseHeadersElement(events, pos + 1).value.at + 1)))
              && (parseHeadersElement(events, pos + 1).Ok? && parseHeadersElement(events, pos + 1).value.at >= |events| ==>
                    r == Err(PrematureEnd))
  {
    if pos >= |events| then Err(PrematureEnd)
    else
      var e := EventAt(events, pos + 1);
      if e.StartElement? && e.name == ELEMENT_HEADERS then
        match parseHeadersElement(events, pos + 1)
        case Err(err) => Err(err)
        case Ok(h) => if h.at >= |events| then Err(PrematureEnd) else Ok(Parsed(Some(h.value), h.at + 1))
      else Ok(Parsed(None, pos + 1))
  }

  // ---------------------------------------------------------------------------
  // Specification functions: one step of each parser's loop per call.

  /**
   * The loop of parseText and parseBase64 from cursor `cur`, `text` being the
   * last character data seen so far.
   */
  function CharacterData(events: seq<Event>, cur: nat, element: string, text: Option<string>)
    : (r: Result<Parsed<Option<string>>, ParseError>)
    ensures r.Ok? ==> cur < r.value.at < |events| && events[r.value.at] == EndElement(element)
    decreases |events| - cur
  {
    if cur >= |events| then Err(PrematureEnd)
    else
      match EventAt(events, cur + 1)
      case EndElement(n) => if n == element then Ok(Parsed(text, cur + 1)) else Err(UnexpectedEndTag(n))
      case TextCharacters(t) => CharacterData(events, cur + 1, element, Some(t))
      case e => Err(UnexpectedEvent(e))
  }

  /** The loop of parseChunkedBase64 and parseIbb: the index of the element's own end tag. */
  function EmptyElement(events: seq<Event>, cur: nat, element: string): (r: Result<nat, ParseError>)
    ensures r.Ok? ==> r.value == cur + 1 && r.value < |events| && events[r.value] == EndElement(element)
  {
    if cur >= |events| then Err(PrematureEnd)
    else
      match EventAt(events, cur + 1)
      case EndElement(n) => if n == element then Ok(cur + 1) else Err(UnexpectedEndTag(n))
      case e => Err(UnexpectedEvent(e))
  }

  /** The start tag's ` name="value"` text for one attribute (namespace ignored). */
  function AttributeXml(a: Attribute, esc: XmlEscaping): string {
    " " + a.name + "=\"" + esc.forAttribute(a.value) + "\""
  }

  /** What appendXmlAttributes appends: every attribute in index order. */
  function AttributesXml(attributes: seq<Attribute>, esc: XmlEscaping): string {
    if attributes == [] then ""
    else AttributesXml(attributes[..|attributes| - 1], esc) + AttributeXml(attributes[|attributes| - 1], esc)
  }

  /** `>` if the last start tag written is still open, nothing otherwise. */
  function CloseStart(startClosed: bool): string {
    if startClosed then "" else ">"
  }

  /**
   * The loop of parseXml from cursor `cur`: `out` is what the builder holds and
   * `startClosed` whether the last start tag written has been closed.
   */
  function XmlContent(events: seq<Event>, cur: nat, out: string, startClosed: bool, esc: XmlEscaping)
    : (r: Result<Parsed<string>, ParseError>)
    ensures r.Ok? ==> cur < r.value.at < |events| && events[r.value.at] == EndElement(ELEMENT_XML)
    decreases |events| - cur
  {
    if cur >= |events| then Err(PrematureEnd)
    else
      match EventAt(events, cur + 1)
      case EndElement(n) =>
        if n == ELEMENT_XML then Ok(Parsed(out, cur + 1))
        else if startClosed then XmlContent(events, cur + 1, out + "</" + n + ">", true, esc)
        else XmlContent(events, cur + 1, out + "/>", true, esc)
      case StartElement(n, _, attributes) =>
        XmlContent(events, cur + 1, out + CloseStart(startClosed) + "<" + n + AttributesXml(attributes, esc), false, esc)
      case TextCharacters(t) =>
        XmlContent(events, cur + 1, out + CloseStart(startClosed) + esc.forText(t), true, esc)
      case e => Err(UnexpectedEvent(e))
  }

  /** The attributes of the start tag the cursor stands on. */
  function CurrentAttributes(events: seq<Event>, pos: nat): seq<Attribute> {
    if EventAt(events, pos).StartElement? then EventAt(events, pos).attributes else []
  }

  /** The payload a decoded child element yields, the cursor being on its start tag. */
  function ChildContent(events: seq<Event>, pos: nat, name: string, esc: XmlEscaping)
    : (r: Result<Parsed<DataChild>, ParseError>)
    requires IsDecodedChild(name)
    ensures r.Ok? ==> pos < r.value.at < |events| && events[r.value.at] == EndElement(name)
  {
    if name == ELEMENT_TEXT || name == ELEMENT_BASE_64 then
      match CharacterData(events, pos, name, None)
      case Ok(p) => Ok(Parsed(if name == ELEMENT_TEXT then Text(p.value) else Base64(p.value), p.at))
      case Err(e) => Err(e)
    else if name == ELEMENT_XML then
      match XmlContent(events, pos, "", true, esc)
      case Ok(p) => Ok(Parsed(Xml(p.value), p.at))
      case Err(e) => Err(e)
    else
      var attributes := CurrentAttributes(events, pos);
      match EmptyElement(events, pos, name)
      case Ok(at) =>
        Ok(Parsed(if name == ELEMENT_CHUNKED_BASE_64 then ChunkedBase64(AttributeValue(attributes, "", ATTRIBUTE_STREAM_ID))
                  else Ibb(AttributeValue(attributes, "", ATTRIBUTE_SID)), at))
      case Err(e) => Err(e)
  }

  /** The loop of parseData from cursor `cur`, `child` being the last payload decoded. */
  function DataContent(events: seq<Event>, cur: nat, child: Option<DataChild>, esc: XmlEscaping)
    : (r: Result<Parsed<Data>, ParseError>)
    ensures r.Ok? ==> cur < r.value.at < |events| && events[r.value.at] == EndElement(ELEMENT_DATA)
    decreases |events| - cur
  {
    if cur >= |events| then Err(PrematureEnd)
    else
      match EventAt(events, cur + 1)
      case StartElement(n, _, _) =>
        if IsDecodedChild(n) then
          match ChildContent(events, cur + 1, n, esc)
          case Ok(p) => DataContent(events, p.at, Some(p.value), esc)
          case Err(e) => Err(e)
        else if n == ELEMENT_SIPUB || n == ELEMENT_JINGLE then Err(NotSupportedYet(n))
        else Err(UnsupportedChildTag(n))
      case EndElement(n) =>
        if n == ELEMENT_DATA then Ok(Parsed(Data(child), cur + 1))
        else DataContent(events, cur + 1, child, esc)
      case _ => DataContent(events, cur + 1, child, esc)
  }

  /** parseData: null, without moving the cursor, unless the cursor is on a start tag. */
  function DataElement(events: seq<Event>, pos: nat, esc: XmlEscaping): (r: Result<Parsed<Option<Data>>, ParseError>)
    ensures !EventAt(events, pos).StartElement? ==> r == Ok(Parsed(None, pos))
    ensures r.Ok? && r.value.value.Some? ==>
              && EventAt(events, pos).StartElement?
              && pos < r.value.at < |events| && events[r.value.at] == EndElement(ELEMENT_DATA)
  {
    if !EventAt(events, pos).StartElement? then Ok(Parsed(None, pos))
    else
      match DataContent(events, pos, None, esc)
      case Ok(p) => Ok(Parsed(Some(p.value), p.at))
      case Err(e) => Err(e)
  }

  // ---------------------------------------------------------------------------
  // The parsers.

  /** The loop shared by parseText and parseBase64. */
  method ParseCharacterData(events: seq<Event>, pos: nat, element: string)
    returns (r: Result<Parsed<Option<string>>, ParseError>)
    ensures r == CharacterData(events, pos, element, None)
  {
    var text: Option<string> := None;
    var cur := pos;
    while true
      invariant CharacterData(events, cur, element, text) == CharacterData(events, pos, element, None)
      decreases |events| - cur
    {
      if cur >= |events| {
        return Err(PrematureEnd);
      }
      cur := cur + 1;
      var eventType := EventAt(events, cur);
      if eventType.EndElement? {
        if eventType.name == element {
          return Ok(Parsed(text, cur));
        } else {
          return Err(UnexpectedEndTag(eventType.name));
        }
      } else if eventType.TextCharacters? {
        text := Some(eventType.text);
      } else {
        return Err(UnexpectedEvent(eventType));
      }
    }
  }

  method ParseText(events: seq<Event>, pos: nat, ghost esc: XmlEscaping) returns (r: Result<Parsed<DataChild>, ParseError>)
    ensures r == ChildContent(events, pos, ELEMENT_TEXT, esc)
  {
    var t := ParseCharacterData(events, pos, ELEMENT_TEXT);
    match t
    case Ok(p) => r := Ok(Parsed(Text(p.value), p.at));
    case Err(e) => r := Err(e);
  }

  method ParseBase64(events: seq<Event>, pos: nat, ghost esc: XmlEscaping) returns (r: Result<Parsed<DataChild>, ParseError>)
    ensures r == ChildContent(events, pos, ELEMENT_BASE_64, esc)
  {
    var t := ParseCharacterData(events, pos, ELEMENT_BASE_64);
    match t
    case Ok(p) => r := Ok(Parsed(Base64(p.value), p.at));
    case Err(e) => r := Err(e);
  }

  /**
   * The loop shared by parseChunkedBase64 and parseIbb: nothing may precede the
   * end tag. Its first iteration either ends or throws, so it is written here
   * without the loop.
   */
  method ParseEmptyElement(events: seq<Event>, pos: nat, element: string) returns (r: Result<nat, ParseError>)
    ensures r == EmptyElement(events, pos, element)
  {
    if pos >= |events| {
      return Err(PrematureEnd);
    }
    var cur := pos + 1;
    var eventType := EventAt(events, cur);
    if eventType.EndElement? {
      if eventType.name == element {
        r := Ok(cur);
      } else {
        r := Err(UnexpectedEndTag(eventType.name));
      }
    } else {
      r := Err(UnexpectedEvent(eventType));
    }
  }

  method ParseChunkedBase64(events: seq<Event>, pos: nat, ghost esc: XmlEscaping) returns (r: Result<Parsed<DataChild>, ParseError>)
    ensures r == ChildContent(events, pos, ELEMENT_CHUNKED_BASE_64, esc)
  {
    var streamId := AttributeValue(CurrentAttributes(events, pos), "", ATTRIBUTE_STREAM_ID);
    var child := ChunkedBase64(streamId);
    var end := ParseEmptyElement(events, pos, ELEMENT_CHUNKED_BASE_64);
    match end
    case Ok(at) => r := Ok(Parsed(child, at));
    case Err(e) => r := Err(e);
  }

  method ParseIbb(events: seq<Event>, pos: nat, ghost esc: XmlEscaping) returns (r: Result<Parsed<DataChild>, ParseError>)
    ensures r == ChildContent(events, pos, ELEMENT_IBB, esc)
  {
    var sid := AttributeValue(CurrentAttributes(events, pos), "", ATTRIBUTE_SID);
    var child := Ibb(sid);
    var end := ParseEmptyElement(events, pos, ELEMENT_IBB);
    match end
    case Ok(at) => r := Ok(Parsed(child, at));
    case Err(e) => r := Err(e);
  }

  /** appendXmlAttributes: appends ` name="escaped value"` for each attribute, in index order. */
  method AppendXmlAttributes(builder: string, attributes: seq<Attribute>, esc: XmlEscaping) returns (b: string)
    ensures b == builder + AttributesXml(attributes, esc)
  {
    b := builder;
    var count := |attributes|;
    if count > 0 {
      for i := 0 to count
        invariant b == builder + AttributesXml(attributes[..i], esc)
      {
        b := b + " " + attributes[i].name + "=\"" + esc.forAttribute(attributes[i].value) + "\"";
        assert attributes[..i + 1][..i] == attributes[..i];
      }
    }
    assert attributes[..count] == attributes;
  }

  /** parseXml: re-serialises everything up to the first `</xml>` into a string. */
  method ParseXml(events: seq<Event>, pos: nat, esc: XmlEscaping) returns (r: Result<Parsed<DataChild>, ParseError>)
    ensures r == ChildContent(events, pos, ELEMENT_XML, esc)
  {
    var builder := "";
    var startClosed := true;
    var cur := pos;
    while true
      invariant XmlContent(events, cur, builder, startClosed, esc) == XmlContent(events, pos, "", true, esc)
      decreases |events| - cur
    {
      if cur >= |events| {
        return Err(PrematureEnd);
      }
      cur := cur + 1;
      var eventType := EventAt(events, cur);
      if eventType.EndElement? && eventType.name == ELEMENT_XML {
        return Ok(Parsed(Xml(builder), cur));
      } else if eventType.StartElement? {
        ghost var before := builder;
        if !startClosed {
          builder := builder + ">";
        }
        builder := builder + "<" + eventType.name;
        builder := AppendXmlAttributes(builder, eventType.attributes, esc);
        assert builder == before + CloseStart(startClosed) + "<" + eventType.name + AttributesXml(eventType.attributes, esc);
        startClosed := false;
      } else if eventType.EndElement? {
        if startClosed {
          builder := builder + "</" + eventType.name + ">";
        } else {
          builder := builder + "/>";
          startClosed := true;
        }
      } else if eventType.TextCharacters? {
        ghost var before, wasClosed := builder, startClosed;
        if !startClosed {
          builder := builder + ">";
          startClosed := true;
        }
        builder := builder + esc.forText(eventType.text);
        assert builder == before + CloseStart(wasClosed) + esc.forText(eventType.text);
      } else {
        return Err(UnexpectedEvent(eventType));
      }
    }
  }

  /** parseData: decodes the children of `<data/>` up to its end tag, keeping the last payload. */
  method ParseData(events: seq<Event>, pos: nat, esc: XmlEscaping) returns (r: Result<Parsed<Option<Data>>, ParseError>)
    ensures r == DataElement(events, pos, esc)
  {
    var child: Option<DataChild> := None;
    if !EventAt(events, pos).StartElement? {
      return Ok(Parsed(None, pos));
    }
    var cur := pos;
    while true
      invariant DataContent(events, cur, child, esc) == DataContent(events, pos, None, esc)
      decreases |events| - cur
    {
      if cur >= |events| {
        return Err(PrematureEnd);
      }
      cur := cur + 1;
      var eventType := EventAt(events, cur);
      if eventType.StartElement? {
        var name := eventType.name;
        var c: Result<Parsed<DataChild>, ParseError>;
        if name == ELEMENT_TEXT {
          c := ParseText(events, cur, esc);
        } else if name == ELEMENT_BASE_64 {
          c := ParseBase64(events, cur, esc);
        } else if name == ELEMENT_CHUNKED_BASE_64 {
          c := ParseChunkedBase64(events, cur, esc);
        } else if name == ELEMENT_XML {
          c := ParseXml(events, cur, esc);
        } else if name == ELEMENT_IBB {
          c := ParseIbb(events, cur, esc);
        } else if name == ELEMENT_SIPUB || name == ELEMENT_JINGLE {
          return Err(NotSupportedYet(name));
        } else {
          return Err(UnsupportedChildTag(name));
        }
        if c.Err? {
          return Err(c.error);
        }
        child := Some(c.value.value);
        cur := c.value.at;
      } else if eventType.EndElement? && eventType.name == ELEMENT_DATA {
        return Ok(Parsed(Some(Data(child)), cur));
      }
    }
  }
}
