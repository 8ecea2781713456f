/**
 * What the message parser and the Message getters promise about bodies,
 * subjects and their languages: the lookup rules, the round trip from the
 * children of a `<message/>` to the parsed lists, and the rejection of
 * bodies that do not hold text only.
 */
module MessageProperties {
  import opened Wrappers
  import opened XmlEvents
  import opened MessageLanguages

  // ---------------------------------------------------------------------------
  // The lookup rules

  /** getBody() and getBody(null) do not depend on the message's own language. */
  lemma {:induction false} DefaultIgnoresMessageLanguage(texts: seq<Localized>, ml1: Option<string>, ml2: Option<string>)
    ensures Lookup(texts, ml1, None) == Lookup(texts, ml2, None)
    decreases texts
  {
    if texts != [] {
      DefaultIgnoresMessageLanguage(texts[1..], ml1, ml2);
    }
  }

  /** A later entry never displaces an earlier answer; it answers only when nothing before it does. */
  lemma {:induction false} LookupAppend(texts: seq<Localized>, x: Localized, ml: Option<string>, lang: Option<string>)
    ensures Lookup(texts + [x], ml, lang)
            == if Lookup(texts, ml, lang).Some? then Lookup(texts, ml, lang)
               else if Answers(x, ml, lang) then Some(x.text) else None
    decreases texts
  {
    if texts == [] {
      assert [x][1..] == [];
    } else {
      assert (texts + [x])[1..] == texts[1..] + [x];
      LookupAppend(texts[1..], x, ml, lang);
    }
  }

  /** A tagged entry adds its tag to the languages; an untagged one adds nothing. */
  lemma LanguagesAppend(texts: seq<Localized>, x: Localized)
    ensures Languages(texts + [x]) == Languages(texts) + (if x.language.Some? then {x.language.value} else {})
  {
    var all := texts + [x];
    forall l ensures l in Languages(all) <==> l in Languages(texts) || x.language == Some(l) {
      if l in Languages(all) {
        var i :| 0 <= i < |all| && all[i].language == Some(l);
        if i < |texts| {
          assert texts[i].language == Some(l);
        }
      }
      if l in Languages(texts) {
        var i :| 0 <= i < |texts| && texts[i].language == Some(l);
        assert all[i] == texts[i];
      }
      if x.language == Some(l) {
        assert all[|texts|] == x;
      }
    }
  }

  /**
   * One body (or subject) with its own language `own` in a message in
   * language `ml`: getBody() finds it exactly when it is untagged, its tag is
   * all getBodyLanguages() lists, and getBody(lang) finds it exactly when it
   * is tagged `lang` or untagged in a message in `lang`.
   */
  lemma SingleEntry(ml: Option<string>, own: Option<string>, t: string, lang: string)
    ensures Lookup([Localized(own, t)], ml, None) == if own.None? then Some(t) else None
    ensures Languages([Localized(own, t)]) == if own.Some? then {own.value} else {}
    ensures Lookup([Localized(own, t)], ml, Some(lang)) == Some(t) <==> own == Some(lang) || (own.None? && ml == Some(lang))
    ensures Lookup([Localized(own, t)], ml, Some(lang)) != Some(t) ==> Lookup([Localized(own, t)], ml, Some(lang)) == None
  {
    LanguagesAppend([], Localized(own, t));
    assert [] + [Localized(own, t)] == [Localized(own, t)];
  }

  /**
   * An untagged entry then one tagged `other`, in a message not in `other`:
   * the untagged one is the default, the tagged one answers for `other`, both
   * are kept and only `other` is listed as a language.
   */
  lemma UntaggedThenTagged(ml: Option<string>, t1: string, other: string, t2: string)
    requires ml != Some(other)
    ensures var texts := [Localized(None, t1), Localized(Some(other), t2)];
            Lookup(texts, ml, None) == Some(t1) && Lookup(texts, ml, Some(other)) == Some(t2)
            && |texts| == 2 && Languages(texts) == {other}
  {
    var texts := [Localized(None, t1), Localized(Some(other), t2)];
    LanguagesAppend([Localized(None, t1)], Localized(Some(other), t2));
    LanguagesAppend([], Localized(None, t1));
    assert [Localized(None, t1)] + [Localized(Some(other), t2)] == texts;
    assert [] + [Localized(None, t1)] == [Localized(None, t1)];
  }

  // ---------------------------------------------------------------------------
  // The children of <message/>

  const CLIENT_NAMESPACE: string := "jabber:client"

  /** A child of `<message/>`. */
  datatype MessageChild =
    | BodyChild(language: Option<string>, text: string)
    | SubjectChild(language: Option<string>, text: string)
    /** Any other element (thread, extensions, ...), skipped by this model. */
    | OtherChild(element: XmlNode)
    /** Character data between the children. */
    | Whitespace(characters: string)

  /** The attributes of a tag with that `xml:lang`, or none. */
  function LangAttributes(lang: Option<string>): seq<Attribute> {
    if lang.Some? then [Attribute(XML_NAMESPACE, LANG, lang.value)] else []
  }

  /** `<name xml:lang='..'>text</name>`; `<name/>` when the text is empty. */
  function TextEvents(name: string, lang: Option<string>, text: string): seq<Event> {
    [StartElement(name, CLIENT_NAMESPACE, LangAttributes(lang))] + (if text == "" then [] else [TextCharacters(text)]) + [EndElement(name)]
  }

  function ChildEvents(c: MessageChild): seq<Event> {
    match c
    case BodyChild(lang, text) => TextEvents(BODY, lang, text)
    case SubjectChild(lang, text) => TextEvents(SUBJECT, lang, text)
    case OtherChild(n) => NodeEvents(n)
    case Whitespace(t) => [TextCharacters(t)]
  }

  function ChildrenEvents(cs: seq<MessageChild>): seq<Event> {
    if cs == [] then [] else ChildEvents(cs[0]) + ChildrenEvents(cs[1..])
  }

  /** Other children are elements, and neither bodies nor subjects. */
  predicate WellFormedChild(c: MessageChild) {
    c.OtherChild? ==> c.element.Element? && c.element.name != BODY && c.element.name != SUBJECT
  }

  predicate WellFormedChildren(cs: seq<MessageChild>) {
    forall i :: 0 <= i < |cs| ==> WellFormedChild(cs[i])
  }

  /** The body a child stands for, if it is one. */
  function BodyOf(c: MessageChild): seq<Localized> {
    if c.BodyChild? then [Localized(c.language, c.text)] else []
  }

  /** The subject a child stands for, if it is one. */
  function SubjectOf(c: MessageChild): seq<Localized> {
    if c.SubjectChild? then [Localized(c.language, c.text)] else []
  }

  /** The bodies among the children, in order. */
  function Bodies(cs: seq<MessageChild>): seq<Localized> {
    if cs == [] then [] else BodyOf(cs[0]) + Bodies(cs[1..])
  }

  /** The subjects among the children, in order. */
  function Subjects(cs: seq<MessageChild>): seq<Localized> {
    if cs == [] then [] else SubjectOf(cs[0]) + Subjects(cs[1..])
  }

  /** The message gathered so far once `c` is read. */
  function Apply(acc: Message, c: MessageChild): Message {
    match c
    case BodyChild(lang, text) => AddText(acc, BODY, Localized(lang, text))
    case SubjectChild(lang, text) => AddText(acc, SUBJECT, Localized(lang, text))
    case _ => acc
  }

  lemma LangRoundTrip(lang: Option<string>)
    ensures Lang(LangAttributes(lang)) == lang
  {
  }

  /** parseMessage reading a body or a subject whose text ends at `at`. */
  lemma TextElementStep(events: seq<Event>, cur: nat, acc: Message, name: string, attributes: seq<Attribute>, t: string, at: nat,
                        res: Message)
    requires cur + 1 < |events| && events[cur + 1].StartElement? && events[cur + 1].name == name
    requires events[cur + 1].attributes == attributes && (name == BODY || name == SUBJECT)
    requires ElementText(events, cur + 1, name) == Ok(Parsed(t, at))
    requires res == AddText(acc, name, Localized(Lang(attributes), t))
    ensures MessageContent(events, cur, acc) == MessageContent(events, at, res)
  {
  }

  /** parseMessage skipping any other element, from its start tag at `cur + 1` to its end tag at `end`. */
  lemma OtherElementStep(events: seq<Event>, cur: nat, acc: Message, end: nat)
    requires cur + 1 < |events| && events[cur + 1].StartElement?
    requires events[cur + 1].name != BODY && events[cur + 1].name != SUBJECT
    requires ElementEnd(events, cur + 1, 0) == Ok(end)
    ensures MessageContent(events, cur, acc) == MessageContent(events, end, acc)
  {
  }

  /** The events of an empty `<name/>`: its start tag, then its end tag right after. */
  lemma EmptyTextParsed(events: seq<Event>, i: nat, name: string, lang: Option<string>)
    requires Window(events, i, TextEvents(name, lang, ""))
    ensures i < |events| && events[i] == StartElement(name, CLIENT_NAMESPACE, LangAttributes(lang))
    ensures ElementText(events, i, name) == Ok(Parsed("", i + 1))
  {
    var start := StartElement(name, CLIENT_NAMESPACE, LangAttributes(lang));
    assert TextEvents(name, lang, "") == [start, EndElement(name)];
    WindowRest(events, i, [start, EndElement(name)], start, [EndElement(name)], i + 1);
    WindowOne(events, i + 1, EndElement(name));
  }

  /** The events of `<name>t</name>` with `t` not empty: start tag, text, end tag. */
  lemma TextParsed(events: seq<Event>, i: nat, name: string, lang: Option<string>, t: string)
    requires t != "" && Window(events, i, TextEvents(name, lang, t))
    ensures i < |events| && events[i] == StartElement(name, CLIENT_NAMESPACE, LangAttributes(lang))
    ensures ElementText(events, i, name) == Ok(Parsed(t, i + 2))
  {
    var start := StartElement(name, CLIENT_NAMESPACE, LangAttributes(lang));
    assert TextEvents(name, lang, t) == [start, TextCharacters(t), EndElement(name)];
    WindowRest(events, i, [start, TextCharacters(t), EndElement(name)], start, [TextCharacters(t), EndElement(name)], i + 1);
    WindowRest(events, i + 1, [TextCharacters(t), EndElement(name)], TextCharacters(t), [EndElement(name)], i + 2);
    WindowOne(events, i + 2, EndElement(name));
  }

  /** Reading a body or a subject child. */
  lemma TextStep(events: seq<Event>, cur: nat, acc: Message, c: MessageChild, at: nat)
    requires (c.BodyChild? || c.SubjectChild?) && Window(events, cur + 1, ChildEvents(c)) && at == cur + |ChildEvents(c)|
    ensures MessageContent(events, cur, acc) == MessageContent(events, at, Apply(acc, c))
  {
    var name := if c.BodyChild? then BODY else SUBJECT;
    assert ChildEvents(c) == TextEvents(name, c.language, c.text);
    if c.text == "" {
      EmptyTextParsed(events, cur + 1, name, c.language);
    } else {
      TextParsed(events, cur + 1, name, c.language, c.text);
    }
    LangRoundTrip(c.language);
    assert Apply(acc, c) == AddText(acc, name, Localized(c.language, c.text));
    TextElementStep(events, cur, acc, name, LangAttributes(c.language), c.text, at, Apply(acc, c));
  }

  /** Skipping any other element child. */
  lemma OtherStep(events: seq<Event>, cur: nat, acc: Message, c: MessageChild, at: nat)
    requires c.OtherChild? && WellFormedChild(c) && Window(events, cur + 1, ChildEvents(c)) && at == cur + |ChildEvents(c)|
    ensures MessageContent(events, cur, acc) == MessageContent(events, at, Apply(acc, c))
  {
    var n := c.element;
    ElementExtent(events, cur + 1, n);
    assert events[cur + 1].name == n.name && n.name != BODY && n.name != SUBJECT;
    assert ElementEnd(events, cur + 1, 0) == Ok(at);
    OtherElementStep(events, cur, acc, at);
  }

  lemma ChildStep(events: seq<Event>, cur: nat, acc: Message, c: MessageChild, at: nat)
    requires WellFormedChild(c) && Window(events, cur + 1, ChildEvents(c)) && at == cur + |ChildEvents(c)|
    ensures MessageContent(events, cur, acc) == MessageContent(events, at, Apply(acc, c))
  {
    match c
    case BodyChild(_, _) => TextStep(events, cur, acc, c, at);
    case SubjectChild(_, _) => TextStep(events, cur, acc, c, at);
    case OtherChild(_) => OtherStep(events, cur, acc, c, at);
    case Whitespace(t) => WindowOne(events, cur + 1, TextCharacters(t));
  }

  /** Reading the children one after the other appends their bodies and subjects, in order. */
  lemma {:induction false} MessageChildren(events: seq<Event>, cur: nat, acc: Message, cs: seq<MessageChild>, at: nat, res: Message)
    requires WellFormedChildren(cs) && Window(events, cur + 1, ChildrenEvents(cs)) && at == cur + |ChildrenEvents(cs)|
    requires res == Message(acc.language, acc.bodies + Bodies(cs), acc.subjects + Subjects(cs))
    ensures MessageContent(events, cur, acc) == MessageContent(events, at, res)
    decreases cs, 1
  {
    if cs == [] {
      assert acc.bodies + [] == acc.bodies && acc.subjects + [] == acc.subjects;
    } else {
      MessageChildrenCons(events, cur, acc, cs, at, res);
    }
  }

  lemma {:induction false} MessageChildrenCons(events: seq<Event>, cur: nat, acc: Message, cs: seq<MessageChild>, at: nat, res: Message)
    requires cs != []
    requires WellFormedChildren(cs) && Window(events, cur + 1, ChildrenEvents(cs)) && at == cur + |ChildrenEvents(cs)|
    requires res == Message(acc.language, acc.bodies + Bodies(cs), acc.subjects + Subjects(cs))
    ensures MessageContent(events, cur, acc) == MessageContent(events, at, res)
    decreases cs, 0
  {
    var mid := cur + |ChildEvents(cs[0])|;
    ChildrenSplit(events, cur, cs, mid);
    TailWellFormed(cs);
    ChildStep(events, cur, acc, cs[0], mid);
    var next := Apply(acc, cs[0]);
    ApplyPieces(acc, cs[0]);
    BodiesGather(acc.bodies, cs);
    SubjectsGather(acc.subjects, cs);
    MessageChildren(events, mid, next, cs[1..], at, res);
  }

  /** The events of the children: the first child's, then the rest's. */
  lemma ChildrenSplit(events: seq<Event>, cur: nat, cs: seq<MessageChild>, mid: nat)
    requires cs != [] && Window(events, cur + 1, ChildrenEvents(cs))
    requires mid == cur + |ChildEvents(cs[0])|
    ensures Window(events, cur + 1, ChildEvents(cs[0])) && Window(events, mid + 1, ChildrenEvents(cs[1..]))
    ensures |ChildrenEvents(cs)| == |ChildEvents(cs[0])| + |ChildrenEvents(cs[1..])|
  {
    WindowParts(events, cur + 1, ChildrenEvents(cs), ChildEvents(cs[0]), ChildrenEvents(cs[1..]), mid + 1);
  }

  lemma TailWellFormed(cs: seq<MessageChild>)
    requires cs != [] && WellFormedChildren(cs)
    ensures WellFormedChild(cs[0]) && WellFormedChildren(cs[1..])
  {
    assert WellFormedChild(cs[0]);
    forall i | 0 <= i < |cs[1..]| ensures WellFormedChild(cs[1..][i]) {
      assert cs[1..][i] == cs[i + 1];
    }
  }

  /** Reading a child adds its body or its subject, if any. */
  lemma ApplyPieces(acc: Message, c: MessageChild)
    ensures Apply(acc, c).language == acc.language
    ensures Apply(acc, c).bodies == acc.bodies + BodyOf(c)
    ensures Apply(acc, c).subjects == acc.subjects + SubjectOf(c)
  {
    match c
    case BodyChild(lang, text) =>
      assert acc.subjects + SubjectOf(c) == acc.subjects;
    case SubjectChild(lang, text) =>
      assert acc.bodies + BodyOf(c) == acc.bodies;
    case _ =>
      assert acc.subjects + SubjectOf(c) == acc.subjects;
      assert acc.bodies + BodyOf(c) == acc.bodies;
  }

  /** Gathering the bodies of children after some bodies: the first child's, then the rest's. */
  lemma BodiesGather(bodies: seq<Localized>, cs: seq<MessageChild>)
    requires cs != []
    ensures bodies + Bodies(cs) == (bodies + BodyOf(cs[0])) + Bodies(cs[1..])
  {
  }

  /** Gathering the subjects of children after some subjects: the first child's, then the rest's. */
  lemma SubjectsGather(subjects: seq<Localized>, cs: seq<MessageChild>)
    requires cs != []
    ensures subjects + Subjects(cs) == (subjects + SubjectOf(cs[0])) + Subjects(cs[1..])
  {
  }

  /** parseMessage up to the end of well-formed children: their bodies and subjects, in order, in the message's language. */
  lemma MessagePrefix(events: seq<Event>, pos: nat, namespace: string, attributes: seq<Attribute>, cs: seq<MessageChild>, at: nat)
    requires WellFormedChildren(cs)
    requires Window(events, pos, [StartElement(MESSAGE, namespace, attributes)] + ChildrenEvents(cs))
    requires at == pos + |ChildrenEvents(cs)|
    ensures ParseMessage(events, pos) == MessageContent(events, at, Message(Lang(attributes), Bodies(cs), Subjects(cs)))
  {
    WindowRest(events, pos, [StartElement(MESSAGE, namespace, attributes)] + ChildrenEvents(cs),
               StartElement(MESSAGE, namespace, attributes), ChildrenEvents(cs), pos + 1);
    var init := Message(Lang(attributes), [], []);
    assert [] + Bodies(cs) == Bodies(cs) && [] + Subjects(cs) == Subjects(cs);
    MessageChildren(events, pos, init, cs, at, Message(Lang(attributes), Bodies(cs), Subjects(cs)));
  }

  /** parseMessage stops on `</message>`, returning what it has gathered. */
  lemma MessageEnd(events: seq<Event>, cur: nat, acc: Message)
    requires cur + 1 < |events| && events[cur + 1] == EndElement(MESSAGE)
    ensures MessageContent(events, cur, acc) == Ok(Parsed(acc, cur + 1))
  {
  }

  /**
   * The round trip of parseMessage: the events of a `<message/>` with
   * well-formed children give every body and every subject, in document
   * order with their own languages, and the message's own `xml:lang`.
   */
  lemma MessageDecoded(events: seq<Event>, pos: nat, namespace: string, attributes: seq<Attribute>, cs: seq<MessageChild>)
    requires WellFormedChildren(cs)
    requires Window(events, pos, [StartElement(MESSAGE, namespace, attributes)] + ChildrenEvents(cs) + [EndElement(MESSAGE)])
    ensures ParseMessage(events, pos)
            == Ok(Parsed(Message(Lang(attributes), Bodies(cs), Subjects(cs)), pos + |ChildrenEvents(cs)| + 1))
  {
    var at := pos + |ChildrenEvents(cs)|;
    var start := [StartElement(MESSAGE, namespace, attributes)] + ChildrenEvents(cs);
    WindowThen(events, pos, start, EndElement(MESSAGE), at + 1);
    MessagePrefix(events, pos, namespace, attributes, cs, at);
    MessageEnd(events, at, Message(Lang(attributes), Bodies(cs), Subjects(cs)));
  }

  // ---------------------------------------------------------------------------
  // Bodies hold text only

  /**
   * A `<body/>` (after well-formed children) whose first content is an
   * element makes parseMessage fail with mixed content.
   */
  lemma BodyWithChildElementRejected(events: seq<Event>, pos: nat, namespace: string, attributes: seq<Attribute>,
                                     cs: seq<MessageChild>, bodyNamespace: string, bodyAttributes: seq<Attribute>, child: Event)
    requires WellFormedChildren(cs) && child.StartElement?
    requires Window(events, pos, [StartElement(MESSAGE, namespace, attributes)] + ChildrenEvents(cs)
                                 + [StartElement(BODY, bodyNamespace, bodyAttributes), child])
    ensures ParseMessage(events, pos) == Err(MixedContent)
  {
    var at := pos + |ChildrenEvents(cs)|;
    var tail := [StartElement(BODY, bodyNamespace, bodyAttributes), child];
    WindowParts(events, pos, [StartElement(MESSAGE, namespace, attributes)] + ChildrenEvents(cs) + tail,
                [StartElement(MESSAGE, namespace, attributes)] + ChildrenEvents(cs), tail, at + 1);
    WindowAt(events, at + 1, tail, 0);
    WindowAt(events, at + 1, tail, 1);
    MessagePrefix(events, pos, namespace, attributes, cs, at);
  }

  /**
   * A `<body/>` whose text is followed by an end tag other than `</body>`
   * (a stray `</span>` or `</message>`) makes parseMessage fail on that end tag.
   */
  lemma StrayEndTagRejected(events: seq<Event>, pos: nat, namespace: string, attributes: seq<Attribute>,
                            cs: seq<MessageChild>, bodyNamespace: string, bodyAttributes: seq<Attribute>, t: string, name: string)
    requires WellFormedChildren(cs) && name != BODY
    requires Window(events, pos, [StartElement(MESSAGE, namespace, attributes)] + ChildrenEvents(cs)
                                 + [StartElement(BODY, bodyNamespace, bodyAttributes), TextCharacters(t), EndElement(name)])
    ensures ParseMessage(events, pos) == Err(MismatchedEndTag(name))
  {
    var at := pos + |ChildrenEvents(cs)|;
    var tail := [StartElement(BODY, bodyNamespace, bodyAttributes), TextCharacters(t), EndElement(name)];
    WindowParts(events, pos, [StartElement(MESSAGE, namespace, attributes)] + ChildrenEvents(cs) + tail,
                [StartElement(MESSAGE, namespace, attributes)] + ChildrenEvents(cs), tail, at + 1);
    WindowAt(events, at + 1, tail, 0);
    WindowAt(events, at + 1, tail, 1);
    WindowAt(events, at + 1, tail, 2);
    MessagePrefix(events, pos, namespace, attributes, cs, at);
  }

  /**
   * A `</body>` inside the text of a body closes it early; the rest of the
   * text and the real `</body>` are then inside `<message/>`, where that end
   * tag does not match, and parseMessage fails.
   */
  lemma EarlyBodyEndRejected(events: seq<Event>, pos: nat, namespace: string, attributes: seq<Attribute>,
                             cs: seq<MessageChild>, bodyNamespace: string, bodyAttributes: seq<Attribute>, t: string, u: string)
    requires WellFormedChildren(cs)
    requires Window(events, pos, [StartElement(MESSAGE, namespace, attributes)] + ChildrenEvents(cs)
                                 + [StartElement(BODY, bodyNamespace, bodyAttributes), TextCharacters(t), EndElement(BODY),
                                    TextCharacters(u), EndElement(BODY)])
    ensures ParseMessage(events, pos) == Err(MismatchedEndTag(BODY))
  {
    var at := pos + |ChildrenEvents(cs)|;
    var tail := [StartElement(BODY, bodyNamespace, bodyAttributes), TextCharacters(t), EndElement(BODY),
                 TextCharacters(u), EndElement(BODY)];
    WindowParts(events, pos, [StartElement(MESSAGE, namespace, attributes)] + ChildrenEvents(cs) + tail,
                [StartElement(MESSAGE, namespace, attributes)] + ChildrenEvents(cs), tail, at + 1);
    WindowAt(events, at + 1, tail, 0);
    WindowAt(events, at + 1, tail, 1);
    WindowAt(events, at + 1, tail, 2);
    WindowAt(events, at + 1, tail, 3);
    WindowAt(events, at + 1, tail, 4);
    MessagePrefix(events, pos, namespace, attributes, cs, at);
    var m := Message(Lang(attributes), Bodies(cs), Subjects(cs));
    var m' := AddText(m, BODY, Localized(Lang(bodyAttributes), t));
    assert ElementText(events, at + 1, BODY) == Ok(Parsed(t, at + 3));
    assert MessageContent(events, at + 4, m') == Err(MismatchedEndTag(BODY));
    assert MessageContent(events, at + 3, m') == MessageContent(events, at + 4, m');
  }
}
