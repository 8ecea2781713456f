/**
 * What the in-band registration decoder promises: on the events of a
 * `<query/>` element built from fields, extension elements and whitespace it
 * returns the instructions, the fields and the extensions those children
 * describe, and stops on the closing `</query>`.
 */
module RegistrationProperties {
  import opened Wrappers
  import opened XmlEvents
  import opened RegistrationProvider

  // ---------------------------------------------------------------------------
  // The children of <query/>

  /** A child of `<query xmlns='jabber:iq:register'/>`. */
  datatype QueryChild =
    /** `<name>text</name>` in the register namespace; `<name/>` when text is None. */
    | Field(name: string, attributes: seq<Attribute>, text: Option<string>)
    /** An element in another namespace: an extension. */
    | Foreign(element: XmlNode)
    /** Character data between the children (whitespace, typically). */
    | Space(characters: string)

  function ChildEvents(c: QueryChild): seq<Event> {
    match c
    case Field(name, attributes, None) => [StartElement(name, NAMESPACE, attributes), EndElement(name)]
    case Field(name, attributes, Some(t)) => [StartElement(name, NAMESPACE, attributes), TextCharacters(t), EndElement(name)]
    case Foreign(n) => NodeEvents(n)
    case Space(t) => [TextCharacters(t)]
  }

  function ChildrenEvents(cs: seq<QueryChild>): seq<Event> {
    if cs == [] then [] else ChildEvents(cs[0]) + ChildrenEvents(cs[1..])
  }

  /**
   * The children the decoder reads as such: an extension is an element
   * outside the register namespace, and a field with text is not named
   * `query` (its end tag would end the whole query).
   */
  predicate WellFormedChild(c: QueryChild) {
    match c
    case Field(name, _, text) => text.Some? ==> name != QUERY_ELEMENT
    case Foreign(n) => n.Element? && n.namespace != NAMESPACE
    case Space(_) => true
  }

  predicate WellFormedChildren(cs: seq<QueryChild>) {
    forall i :: 0 <= i < |cs| ==> WellFormedChild(cs[i])
  }

  /** The value a field child stands for: its text, "" when it has none. */
  function FieldText(c: QueryChild): string
    requires c.Field?
  {
    if c.text.Some? then c.text.value else ""
  }

  /** What one child adds to the registration. */
  function Apply(acc: Registration, c: QueryChild): Registration {
    match c
    case Field(name, _, _) => Put(acc, name, FieldText(c))
    case Foreign(n) => acc.(extensions := acc.extensions + [Extension(NodeEvents(n))])
    case Space(_) => acc
  }

  /** The registration a sequence of children describes, gathered from left to right. */
  function Collect(acc: Registration, cs: seq<QueryChild>): Registration
    decreases cs
  {
    if cs == [] then acc else Collect(Apply(acc, cs[0]), cs[1..])
  }

  // ---------------------------------------------------------------------------
  // One child at a time

  lemma FieldStep(events: seq<Event>, cur: nat, acc: Registration, c: QueryChild, at: nat, res: Registration)
    requires c.Field? && WellFormedChild(c) && Window(events, cur + 1, ChildEvents(c))
    requires at == cur + |ChildEvents(c)| && res == Apply(acc, c)
    ensures QueryContent(events, cur, acc) == QueryContent(events, at, res)
  {
    var start := StartElement(c.name, NAMESPACE, c.attributes);
    if c.text.None? {
      WindowRest(events, cur + 1, ChildEvents(c), start, [EndElement(c.name)], cur + 2);
      WindowOne(events, cur + 2, EndElement(c.name));
    } else {
      WindowRest(events, cur + 1, ChildEvents(c), start, [TextCharacters(c.text.value), EndElement(c.name)], cur + 2);
      WindowRest(events, cur + 2, [TextCharacters(c.text.value), EndElement(c.name)], TextCharacters(c.text.value),
                 [EndElement(c.name)], cur + 3);
      WindowOne(events, cur + 3, EndElement(c.name));
    }
  }

  /** parse reading one extension element, from its start tag at `cur + 1` to its end tag at `end`. */
  lemma ExtensionStep(events: seq<Event>, cur: nat, acc: Registration, end: nat, res: Registration)
    requires cur + 1 < |events| && events[cur + 1].StartElement? && events[cur + 1].namespace != NAMESPACE
    requires ElementEnd(events, cur + 1, 0) == Ok(end)
    requires res == acc.(extensions := acc.extensions + [Extension(events[cur + 1..end + 1])])
    ensures QueryContent(events, cur, acc) == QueryContent(events, end, res)
  {
  }

  lemma ForeignStep(events: seq<Event>, cur: nat, acc: Registration, c: QueryChild, at: nat, res: Registration)
    requires c.Foreign? && WellFormedChild(c) && Window(events, cur + 1, ChildEvents(c))
    requires at == cur + |ChildEvents(c)| && res == Apply(acc, c)
    ensures QueryContent(events, cur, acc) == QueryContent(events, at, res)
  {
    var n := c.element;
    ElementExtent(events, cur + 1, n);
    WindowSlice(events, cur + 1, NodeEvents(n));
    assert events[cur + 1..at + 1] == NodeEvents(n);
    assert res == acc.(extensions := acc.extensions + [Extension(events[cur + 1..at + 1])]);
    ExtensionStep(events, cur, acc, at, res);
  }

  /** Reading one well-formed child moves the cursor past its events and applies it. */
  lemma ChildStep(events: seq<Event>, cur: nat, acc: Registration, c: QueryChild, at: nat, res: Registration)
    requires WellFormedChild(c) && Window(events, cur + 1, ChildEvents(c))
    requires at == cur + |ChildEvents(c)| && res == Apply(acc, c)
    ensures QueryContent(events, cur, acc) == QueryContent(events, at, res)
  {
    match c
    case Field(_, _, _) => FieldStep(events, cur, acc, c, at, res);
    case Foreign(_) => ForeignStep(events, cur, acc, c, at, res);
    case Space(t) => WindowOne(events, cur + 1, TextCharacters(t));
  }

  /** Reading a sequence of well-formed children, one after the other. */
  lemma {:induction false} QueryChildren(events: seq<Event>, cur: nat, acc: Registration, cs: seq<QueryChild>, at: nat, res: Registration)
    requires WellFormedChildren(cs) && Window(events, cur + 1, ChildrenEvents(cs))
    requires at == cur + |ChildrenEvents(cs)| && res == Collect(acc, cs)
    ensures QueryContent(events, cur, acc) == QueryContent(events, at, res)
    decreases cs, 1
  {
    if cs != [] {
      QueryChildrenCons(events, cur, acc, cs, at, res);
    }
  }

  lemma {:induction false} QueryChildrenCons(events: seq<Event>, cur: nat, acc: Registration, cs: seq<QueryChild>, at: nat, res: Registration)
    requires cs != []
    requires WellFormedChildren(cs) && Window(events, cur + 1, ChildrenEvents(cs))
    requires at == cur + |ChildrenEvents(cs)| && res == Collect(acc, cs)
    ensures QueryContent(events, cur, acc) == QueryContent(events, at, res)
    decreases cs, 0
  {
    var mid := cur + |ChildEvents(cs[0])|;
    ChildrenSplit(events, cur, cs, mid);
    TailWellFormed(cs);
    ChildStep(events, cur, acc, cs[0], mid, Apply(acc, cs[0]));
    QueryChildren(events, mid, Apply(acc, cs[0]), cs[1..], at, res);
  }

  /** The events of the children: the first child's, then the rest's. */
  lemma ChildrenSplit(events: seq<Event>, cur: nat, cs: seq<QueryChild>, mid: nat)
    requires cs != [] && Window(events, cur + 1, ChildrenEvents(cs))
    requires mid == cur + |ChildEvents(cs[0])|
    ensures Window(events, cur + 1, ChildEvents(cs[0])) && Window(events, mid + 1, ChildrenEvents(cs[1..]))
    ensures |ChildrenEvents(cs)| == |ChildEvents(cs[0])| + |ChildrenEvents(cs[1..])|
  {
    WindowParts(events, cur + 1, ChildrenEvents(cs), ChildEvents(cs[0]), ChildrenEvents(cs[1..]), mid + 1);
  }

  lemma TailWellFormed(cs: seq<QueryChild>)
    requires cs != [] && WellFormedChildren(cs)
    ensures WellFormedChild(cs[0]) && WellFormedChildren(cs[1..])
  {
    assert WellFormedChild(cs[0]);
    forall i | 0 <= i < |cs[1..]| ensures WellFormedChild(cs[1..][i]) {
      assert cs[1..][i] == cs[i + 1];
    }
  }

  /** parse stops on `</query>`, returning what it has gathered. */
  lemma QueryEnd(events: seq<Event>, cur: nat, acc: Registration)
    requires cur + 1 < |events| && events[cur + 1] == EndElement(QUERY_ELEMENT)
    ensures QueryContent(events, cur, acc) == Ok(Parsed(acc, cur + 1))
  {
  }

  /**
   * The round trip of parse: on the events of well-formed children followed
   * by `</query>`, it returns the registration the children describe and
   * stands on that end tag.
   */
  lemma RegistrationDecoded(events: seq<Event>, pos: nat, cs: seq<QueryChild>)
    requires WellFormedChildren(cs) && Window(events, pos + 1, ChildrenEvents(cs) + [EndElement(QUERY_ELEMENT)])
    ensures QueryContent(events, pos, EMPTY) == Ok(Parsed(Collect(EMPTY, cs), pos + |ChildrenEvents(cs)| + 1))
  {
    var at := pos + |ChildrenEvents(cs)|;
    WindowThen(events, pos + 1, ChildrenEvents(cs), EndElement(QUERY_ELEMENT), at + 1);
    QueryThrough(events, pos, cs, at, Collect(EMPTY, cs));
  }

  /** parse over the children's events, up to the `</query>` at `at + 1`. */
  lemma QueryThrough(events: seq<Event>, pos: nat, cs: seq<QueryChild>, at: nat, res: Registration)
    requires WellFormedChildren(cs) && Window(events, pos + 1, ChildrenEvents(cs)) && at == pos + |ChildrenEvents(cs)|
    requires at + 1 < |events| && events[at + 1] == EndElement(QUERY_ELEMENT) && res == Collect(EMPTY, cs)
    ensures QueryContent(events, pos, EMPTY) == Ok(Parsed(res, at + 1))
  {
    QueryChildren(events, pos, EMPTY, cs, at, res);
    QueryEnd(events, at, res);
  }

  // ---------------------------------------------------------------------------
  // What the children describe

  lemma {:induction false} CollectSnoc(acc: Registration, cs: seq<QueryChild>, c: QueryChild)
    ensures Collect(acc, cs + [c]) == Apply(Collect(acc, cs), c)
    decreases cs
  {
    if cs == [] {
      assert [c][1..] == [];
    } else {
      assert (cs + [c])[1..] == cs[1..] + [c];
      CollectSnoc(Apply(acc, cs[0]), cs[1..], c);
    }
  }

  /** Child `i` is a field named `name`. */
  predicate FieldNamed(cs: seq<QueryChild>, i: int, name: string) {
    0 <= i < |cs| && cs[i].Field? && cs[i].name == name
  }

  /** Child `i` is the last field named `name`. */
  predicate LastFieldNamed(cs: seq<QueryChild>, i: int, name: string) {
    FieldNamed(cs, i, name) && forall j :: i < j < |cs| ==> !FieldNamed(cs, j, name)
  }

  /**
   * The field map: a name is a key exactly when some field child other than
   * `instructions` carries it, and its value is that of the last such child
   * (a later field replaces an earlier one).
   */
  lemma {:induction false} CollectedFields(cs: seq<QueryChild>, k: string)
    ensures k in Collect(EMPTY, cs).fields <==> k != INSTRUCTIONS && exists i :: FieldNamed(cs, i, k)
    ensures k in Collect(EMPTY, cs).fields ==>
              exists i :: LastFieldNamed(cs, i, k) && Collect(EMPTY, cs).fields[k] == FieldText(cs[i])
    decreases |cs|
  {
    if cs != [] {
      var init, c := cs[..|cs| - 1], cs[|cs| - 1];
      assert cs == init + [c];
      CollectSnoc(EMPTY, init, c);
      CollectedFields(init, k);
      forall i | FieldNamed(init, i, k) ensures FieldNamed(cs, i, k) {}
      if c.Field? && c.name == k {
        assert FieldNamed(cs, |cs| - 1, k);
        if k != INSTRUCTIONS {
          assert LastFieldNamed(cs, |cs| - 1, k);
        }
      } else {
        forall i | FieldNamed(cs, i, k) ensures FieldNamed(init, i, k) {}
        if k in Collect(EMPTY, cs).fields {
          var i :| LastFieldNamed(init, i, k) && Collect(EMPTY, init).fields[k] == FieldText(init[i]);
          assert LastFieldNamed(cs, i, k);
        }
      }
    }
  }

  /**
   * The instructions: None (null) when there is no `instructions` field, and
   * otherwise the value of the last one.
   */
  lemma {:induction false} CollectedInstruction(cs: seq<QueryChild>)
    ensures Collect(EMPTY, cs).instruction.None? <==> !exists i :: FieldNamed(cs, i, INSTRUCTIONS)
    ensures Collect(EMPTY, cs).instruction.Some? ==>
              exists i :: LastFieldNamed(cs, i, INSTRUCTIONS) && Collect(EMPTY, cs).instruction.value == FieldText(cs[i])
    decreases |cs|
  {
    if cs != [] {
      var init, c := cs[..|cs| - 1], cs[|cs| - 1];
      assert cs == init + [c];
      CollectSnoc(EMPTY, init, c);
      CollectedInstruction(init);
      forall i | FieldNamed(init, i, INSTRUCTIONS) ensures FieldNamed(cs, i, INSTRUCTIONS) {}
      if c.Field? && c.name == INSTRUCTIONS {
        assert LastFieldNamed(cs, |cs| - 1, INSTRUCTIONS);
      } else {
        forall i | FieldNamed(cs, i, INSTRUCTIONS) ensures FieldNamed(init, i, INSTRUCTIONS) {}
        if Collect(EMPTY, cs).instruction.Some? {
          var i :| LastFieldNamed(init, i, INSTRUCTIONS) && Collect(EMPTY, init).instruction.value == FieldText(init[i]);
          assert LastFieldNamed(cs, i, INSTRUCTIONS);
        }
      }
    }
  }

  /** The extension elements among the children, in order. */
  function ForeignElements(cs: seq<QueryChild>): seq<XmlNode>
    decreases |cs|
  {
    if cs == [] then []
    else if cs[|cs| - 1].Foreign? then ForeignElements(cs[..|cs| - 1]) + [cs[|cs| - 1].element]
    else ForeignElements(cs[..|cs| - 1])
  }

  /** The extensions are the foreign elements, in document order, each kept whole. */
  lemma {:induction false} CollectedExtensions(cs: seq<QueryChild>)
    ensures |Collect(EMPTY, cs).extensions| == |ForeignElements(cs)|
    ensures forall i :: 0 <= i < |ForeignElements(cs)| ==>
              Collect(EMPTY, cs).extensions[i] == Extension(NodeEvents(ForeignElements(cs)[i]))
    decreases |cs|
  {
    if cs != [] {
      var init, c := cs[..|cs| - 1], cs[|cs| - 1];
      assert cs == init + [c];
      CollectSnoc(EMPTY, init, c);
      CollectedExtensions(init);
    }
  }
}
