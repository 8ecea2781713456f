/**
 * The bodies and subjects of a `<message/>` stanza and their languages
 * (section 5.2.3 and 5.2.4 of RFC 6121), as the message parser and the
 * Message getters behave:
 *
 * - every `<body/>` and `<subject/>` is kept, in document order, with its own
 *   `xml:lang` (None when it has none);
 * - getBody() and getBody(null) return the first body without its own
 *   `xml:lang`, whatever the message's language;
 * - getBody(lang) returns the first body tagged `lang`, or untagged while the
 *   message itself is in `lang`, and null when there is none;
 * - getBodyLanguages() holds the explicit tags only;
 * - subjects follow the same rules;
 * - a body or subject must hold text only: a child element or a stray end
 *   tag makes parsing fail.
 */
module MessageLanguages {
  import opened Wrappers
  import opened XmlEvents

  const MESSAGE: string := "message"
  const BODY: string := "body"
  const SUBJECT: string := "subject"
  /** The namespace of the `xml:` prefix. */
  const XML_NAMESPACE: string := "http://www.w3.org/XML/1998/namespace"
  const LANG: string := "lang"

  /** A body or a subject: its own `xml:lang` and its text. */
  datatype Localized = Localized(language: Option<string>, text: string)

  /**
   * Entry `t` answers a request for `lang` in a message whose own language is
   * `messageLanguage`: for no language (null), only an untagged entry; for a
   * language, an entry tagged with it, or an untagged one when the message
   * is in that language.
   */
  predicate Answers(t: Localized, messageLanguage: Option<string>, lang: Option<string>) {
    if lang.None? then t.language.None?
    else t.language == lang || (t.language.None? && messageLanguage == lang)
  }

  /** Entry `i` is the first that answers the request. */
  predicate FirstAnswer(texts: seq<Localized>, messageLanguage: Option<string>, lang: Option<string>, i: int) {
    0 <= i < |texts| && Answers(texts[i], messageLanguage, lang)
    && forall j :: 0 <= j < i ==> !Answers(texts[j], messageLanguage, lang)
  }

  /** getBody(lang) / getSubject(lang), getBody() being getBody(null): the text of the first entry that answers, or null. */
  function Lookup(texts: seq<Localized>, messageLanguage: Option<string>, lang: Option<string>): (r: Option<string>)
    ensures r.None? <==> forall i :: 0 <= i < |texts| ==> !Answers(texts[i], messageLanguage, lang)
    ensures r.Some? ==> exists i :: FirstAnswer(texts, messageLanguage, lang, i) && texts[i].text == r.value
  {
    if texts == [] then None
    else if Answers(texts[0], messageLanguage, lang) then
      assert FirstAnswer(texts, messageLanguage, lang, 0);
      Some(texts[0].text)
    else
      var r := Lookup(texts[1..], messageLanguage, lang);
      assert forall i :: 1 <= i < |texts| ==> texts[i] == texts[1..][i - 1];
      if r.Some? then
        var k :| FirstAnswer(texts[1..], messageLanguage, lang, k) && texts[1..][k].text == r.value;
        assert FirstAnswer(texts, messageLanguage, lang, k + 1);
        r
      else r
  }

  /** getBodyLanguages() / getSubjectLanguages(): the explicit tags. */
  function Languages(texts: seq<Localized>): (r: set<string>)
    ensures forall l :: l in r <==> exists i :: 0 <= i < |texts| && texts[i].language == Some(l)
  {
    if texts == [] then {}
    else
      var rest := Languages(texts[1..]);
      assert forall i :: 1 <= i < |texts| ==> texts[i] == texts[1..][i - 1];
      if texts[0].language.Some? then {texts[0].language.value} + rest else rest
  }

  /** A parsed message: its own `xml:lang`, its bodies and its subjects, in document order. */
  datatype Message = Message(language: Option<string>, bodies: seq<Localized>, subjects: seq<Localized>) {
    /** getBody(lang); getBody() is Body(None). */
    function Body(lang: Option<string>): Option<string> {
      Lookup(bodies, language, lang)
    }

    function BodyLanguages(): set<string> {
      Languages(bodies)
    }

    /** getSubject(lang); getSubject() is Subject(None). */
    function Subject(lang: Option<string>): Option<string> {
      Lookup(subjects, language, lang)
    }

    function SubjectLanguages(): set<string> {
      Languages(subjects)
    }
  }

  // ---------------------------------------------------------------------------
  // Parsing

  /** The `xml:lang` attribute of a start tag. */
  function Lang(attributes: seq<Attribute>): Option<string> {
    AttributeValue(attributes, XML_NAMESPACE, LANG)
  }

  /**
   * The text of the element whose start tag is at `i`: nothing then its end
   * tag gives "", one text then its end tag gives that text, and anything
   * else is mixed content. An end tag with another name is the XML parser's
   * own error.
   */
  function ElementText(events: seq<Event>, i: nat, name: string): (r: Result<Parsed<string>, ParseError>)
    ensures r.Ok? ==> i < r.value.at < |events| && events[r.value.at] == EndElement(name)
  {
    if i >= |events| then Err(PrematureEnd)
    else
      match EventAt(events, i + 1)
      case EndElement(n) => if n == name then Ok(Parsed("", i + 1)) else Err(MismatchedEndTag(n))
      case TextCharacters(t) =>
        (match EventAt(events, i + 2)
         case EndElement(n) => if n == name then Ok(Parsed(t, i + 2)) else Err(MismatchedEndTag(n))
         case EndDocument => Err(PrematureEnd)
         case _ => Err(MixedContent))
      case EndDocument => Err(PrematureEnd)
      case _ => Err(MixedContent)
  }

  /** A parsed `<body/>` (`name` is BODY) or `<subject/>` added to the message. */
  function AddText(acc: Message, name: string, t: Localized): (r: Message)
    ensures r.language == acc.language
    ensures name == BODY ==> r.bodies == acc.bodies + [t] && r.subjects == acc.subjects
    ensures name != BODY ==> r.subjects == acc.subjects + [t] && r.bodies == acc.bodies
  {
    if name == BODY then acc.(bodies := acc.bodies + [t]) else acc.(subjects := acc.subjects + [t])
  }

  /**
   * The children of `<message/>` from cursor `cur`: bodies and subjects are
   * read, every other element is skipped whole, and `</message>` ends the
   * message.
   */
  function MessageContent(events: seq<Event>, cur: nat, acc: Message): (r: Result<Parsed<Message>, ParseError>)
    ensures r.Ok? ==> cur < r.value.at < |events| && events[r.value.at] == EndElement(MESSAGE)
    ensures r.Ok? ==> r.value.value.language == acc.language
    decreases |events| - cur
  {
    if cur >= |events| then Err(PrematureEnd)
    else
      match EventAt(events, cur + 1)
      case StartElement(name, _, attributes) =>
        if name == BODY || name == SUBJECT then
          (match ElementText(events, cur + 1, name)
           case Err(e) => Err(e)
           case Ok(p) => MessageContent(events, p.at, AddText(acc, name, Localized(Lang(attributes), p.value))))
        else
          (match ElementEnd(events, cur + 1, 0)
           case Err(e) => Err(e)
           case Ok(end) => MessageContent(events, end, acc))
      case EndElement(name) =>
        if name == MESSAGE then Ok(Parsed(acc, cur + 1)) else Err(MismatchedEndTag(name))
      case _ => MessageContent(events, cur + 1, acc)
  }

  /** PacketParserUtils.parseMessage, the cursor on the `<message/>` start tag. */
  function ParseMessage(events: seq<Event>, pos: nat): (r: Result<Parsed<Message>, ParseError>)
    ensures r.Ok? ==> EventAt(events, pos).StartElement? && r.value.value.language == Lang(EventAt(events, pos).attributes)
    ensures r.Ok? ==> pos < r.value.at < |events| && events[r.value.at] == EndElement(MESSAGE)
  {
    match EventAt(events, pos)
    case StartElement(name, _, attributes) =>
      if name == MESSAGE then MessageContent(events, pos, Message(Lang(attributes), [], []))
      else Err(UnexpectedEvent(EventAt(events, pos)))
    case e => Err(UnexpectedEvent(e))
  }
}
