# Smack core, modelled in Dafny

This project models seven pieces of Smack, the XMPP client library, and proves
what they promise.

- **SASL negotiation** (`SASLAuthentication`). A process-wide registry of
  mechanisms. A per-connection coordinator that:
  - picks the first registered mechanism the server offers;
  - waits for the server's verdict;
  - turns the latched `saslNegotiated` / `saslFailure` fields into success,
    `SASLErrorException`, `NoResponseException` or "no known mechanism".
- **The ANONYMOUS mechanism** (`SASLAnonymous`).
- **The HTTP over XMPP `<data/>` decoder** (`AbstractHttpOverXmppProvider`).
  It covers `parseHeaders`, `parseData` and the five payload parsers, including
  the re-serialisation that `parseXml` performs.
- **The in-band registration decoder** (`RegistrationProvider.parse`).
- **The message body and subject language rules, and the descriptive-text
  language rule.** These are the rules that `PacketParserUtilsTest` asserts for
  `parseMessage`, `getBody`, `getSubject` and their language lists. The same
  test also asserts the null-language rule of `StanzaError`'s descriptive texts.
- **Result set management paging** (`RSMManager.page` and both
  `continuePage` overloads).
- **The IoT `Thing` and its `Builder`.**

## How the model is organised

Each module is one concern. The `*_properties.dfy` files hold the lemmas about
the module they are named after.

- **XML pull parser** (`xml_events.dfy`). It is a sequence of events plus a
  cursor. The cursor is the index of the current event. The index `|events|`
  stands for `END_DOCUMENT`. Calling `next()` past it is a premature end of
  input, reported by the XML parser itself.
- **Parsers.** Every parser in the source is a loop over `parser.next()`. Each
  is modelled as a method with that loop, proved equal to a recursive function
  that takes one step per event. The round trips are proved about those
  functions: the events of a well-formed document decode to the value that
  document describes.
- **Objects updated in place.** These are classes whose methods state their
  whole new state:
  - `SASLAuthentication`, the mechanism registry;
  - the RSM extension list;
  - the `Thing` builder and its shared tag map.
- **Blocking wait.** The wait in `authenticate` is modelled by the sequence of
  notifications (`authenticated()`, `authenticationFailed(f)`) that arrive
  while the caller waits, in arrival order.

The rule for a body or subject requested without a language follows the
assertions of PacketParserUtilsTest.java:129-146: in a message without a
language, a body tagged with the default language is not returned by
`getBody()`. Only an untagged body answers that request.

## Model

| member | source | states |
|---|---|---|
| SaslMechanism.Mechanism.NewInstance | smack-core/src/main/java/org/jivesoftware/smack/SASLAuthentication.java:152-153 | a fresh mechanism object, distinct from the registered one, with the same name and priority |
| SaslMechanism.Names | smack-core/src/main/java/org/jivesoftware/smack/SASLAuthentication.java:98-101 | the names of the mechanisms, one per mechanism, in order |
| SaslAnonymous.Name | smack-core/src/main/java/org/jivesoftware/smack/sasl/SASLAnonymous.java:30-32 | the name is `ANONYMOUS`, a valid RFC 4422 mechanism name |
| SaslAnonymous.Priority | smack-core/src/main/java/org/jivesoftware/smack/sasl/SASLAnonymous.java:34-37 | the priority is 500 |
| SaslAnonymous.AuthenticateInternalWithPassword | smack-core/src/main/java/org/jivesoftware/smack/sasl/SASLAnonymous.java:39-43 | the credentials step never fails |
| SaslAnonymous.AuthenticateInternalWithHandler | smack-core/src/main/java/org/jivesoftware/smack/sasl/SASLAnonymous.java:45-49 | the callback-handler step never fails |
| SaslAnonymous.AuthenticationText | smack-core/src/main/java/org/jivesoftware/smack/sasl/SASLAnonymous.java:51-55 | no initial response (null) |
| SaslAnonymous.Create | smack-core/src/main/java/org/jivesoftware/smack/sasl/SASLAnonymous.java:57-60 | a new, distinct ANONYMOUS mechanism with its name and priority |
| SaslAuthentication.Registry.Register | smack-core/src/main/java/org/jivesoftware/smack/SASLAuthentication.java:88-90 | the registry afterwards holds exactly the old mechanisms plus the new one |
| SaslAuthentication.Authentication.constructor | smack-core/src/main/java/org/jivesoftware/smack/SASLAuthentication.java:105-108 | a new coordinator starts with reset latches, no server list and no current mechanism |
| SaslAuthentication.Authentication.RegisteredSaslMechanisms | smack-core/src/main/java/org/jivesoftware/smack/SASLAuthentication.java:97-103 | the names of the registered mechanisms, in iteration order |
| SaslAuthentication.Authentication.HasAnonymousAuthentication | smack-core/src/main/java/org/jivesoftware/smack/SASLAuthentication.java:115-117 | true iff the server list contains `ANONYMOUS` |
| SaslAuthentication.Authentication.HasNonAnonymousAuthentication | smack-core/src/main/java/org/jivesoftware/smack/SASLAuthentication.java:124-126 | true iff the server list is neither empty nor exactly `[ANONYMOUS]` |
| SaslAuthentication.NonAnonymousOffered | smack-core/src/main/java/org/jivesoftware/smack/SASLAuthentication.java:124-126 | for a duplicate-free server list: true iff some mechanism other than ANONYMOUS was offered |
| SaslAuthentication.RepeatedAnonymousCountsAsOther | smack-core/src/main/java/org/jivesoftware/smack/SASLAuthentication.java:124-126 | a list naming ANONYMOUS twice is reported as offering more than ANONYMOUS |
| SaslAuthentication.Authentication.SetAvailableSaslMethods | smack-core/src/main/java/org/jivesoftware/smack/SASLAuthentication.java:312-314 | the server list is replaced; latches and current mechanism are unchanged |
| SaslAuthentication.Authentication.ChallengeReceived | smack-core/src/main/java/org/jivesoftware/smack/SASLAuthentication.java:326-328 | the challenge is handed to the current mechanism, whichever `authenticate` last installed |
| SaslAuthentication.Authentication.Authenticated | smack-core/src/main/java/org/jivesoftware/smack/SASLAuthentication.java:334-340 | sets `saslNegotiated` only |
| SaslAuthentication.Authentication.AuthenticationFailed | smack-core/src/main/java/org/jivesoftware/smack/SASLAuthentication.java:349-355 | sets `saslFailure` only |
| SaslAuthentication.Authentication.Init | smack-core/src/main/java/org/jivesoftware/smack/SASLAuthentication.java:363-366 | resets both latches; nothing else changes |
| SaslAuthentication.Authentication.AwaitVerdict | smack-core/src/main/java/org/jivesoftware/smack/SASLAuthentication.java:167-173 | the latches after the wait are those the notifications leave, in arrival order |
| SaslAuthentication.Authentication.Verdict | smack-core/src/main/java/org/jivesoftware/smack/SASLAuthentication.java:176-184 | a failure gives SASLErrorException; else no success gives NoResponseException; else success |
| SaslAuthentication.FirstOffered | smack-core/src/main/java/org/jivesoftware/smack/SASLAuthentication.java:147-157 | the first registered name the server offers; none iff no registered name is offered |
| SaslAuthentication.FirstOfferedUnique | smack-core/src/main/java/org/jivesoftware/smack/SASLAuthentication.java:147-157 | the index the selection loop stops at is the one FirstOffered describes |
| SaslAuthentication.Authentication.Authenticate | smack-core/src/main/java/org/jivesoftware/smack/SASLAuthentication.java:143-264 | no offered mechanism: "no known mechanism" and nothing changes; otherwise a fresh instance of the first offered mechanism is current, the latches are updated and the verdict names it |
| SaslAuthentication.Authentication.AuthenticateAnonymously | smack-core/src/main/java/org/jivesoftware/smack/SASLAuthentication.java:278-302 | a fresh ANONYMOUS mechanism is current whether or not it was offered; the verdict names the object |
| SaslAuthentication.NegotiatedLatches | smack-core/src/main/java/org/jivesoftware/smack/SASLAuthentication.java:334-340 | `saslNegotiated` ends true iff it was true or a success arrived |
| SaslAuthentication.FailureLatches | smack-core/src/main/java/org/jivesoftware/smack/SASLAuthentication.java:349-355 | `saslFailure` holds the last failure that arrived, or keeps its value when none arrived |
| SaslAuthentication.OutcomeAfterReset | smack-core/src/main/java/org/jivesoftware/smack/SASLAuthentication.java:176-184 | after init, for every arrival order: any failure wins, with the last failure; otherwise success iff a success arrived, NoResponse iff none did |
| SaslAuthentication.StaleFailureSticks | smack-core/src/main/java/org/jivesoftware/smack/SASLAuthentication.java:250-254 | without init, a failure latched earlier fails every later attempt |
| SaslAuthentication.StaleSuccessSticks | smack-core/src/main/java/org/jivesoftware/smack/SASLAuthentication.java:256-258 | without init, a success latched earlier makes a silent server look like success |
| HttpOverXmppProvider.ParseHeaders | smack-experimental/src/main/java/org/jivesoftware/smackx/hoxt/provider/AbstractHttpOverXmppProvider.java:62-71 | advances once; anything but a `<headers/>` start gives null; a `<headers/>` start goes to the headers parser, whose error is passed on, and on success the headers are returned with the cursor one past their end; a `Some` result only arises that way |
| HttpOverXmppProvider.ParseCharacterData | smack-experimental/src/main/java/org/jivesoftware/smackx/hoxt/provider/AbstractHttpOverXmppProvider.java:131-152 | the loop equals the step function CharacterData |
| HttpOverXmppProvider.ParseText | smack-experimental/src/main/java/org/jivesoftware/smackx/hoxt/provider/AbstractHttpOverXmppProvider.java:131-152 | `<text/>` decodes as ChildContent says |
| HttpOverXmppProvider.ParseBase64 | smack-experimental/src/main/java/org/jivesoftware/smackx/hoxt/provider/AbstractHttpOverXmppProvider.java:219-242 | `<base64/>` decodes as ChildContent says |
| HttpOverXmppProperties.CharacterDataAccepts | smack-experimental/src/main/java/org/jivesoftware/smackx/hoxt/provider/AbstractHttpOverXmppProvider.java:135-151 | character data then the element's own end tag is accepted; the value is the last piece of character data, or null |
| HttpOverXmppProperties.CharacterDataRejects | smack-experimental/src/main/java/org/jivesoftware/smackx/hoxt/provider/AbstractHttpOverXmppProvider.java:138-148 | any other end tag or other event after the character data is an IllegalArgumentException |
| HttpOverXmppProvider.ParseEmptyElement | smack-experimental/src/main/java/org/jivesoftware/smackx/hoxt/provider/AbstractHttpOverXmppProvider.java:250-262 | the loop equals EmptyElement |
| HttpOverXmppProperties.EmptyElementOnlyEndTag | smack-experimental/src/main/java/org/jivesoftware/smackx/hoxt/provider/AbstractHttpOverXmppProvider.java:250-262 | accepted iff the next event is the element's own end tag; otherwise IllegalArgumentException |
| HttpOverXmppProvider.ParseChunkedBase64 | smack-experimental/src/main/java/org/jivesoftware/smackx/hoxt/provider/AbstractHttpOverXmppProvider.java:244-264 | `<chunkedBase64/>` decodes as ChildContent says |
| HttpOverXmppProvider.ParseIbb | smack-experimental/src/main/java/org/jivesoftware/smackx/hoxt/provider/AbstractHttpOverXmppProvider.java:266-285 | `<ibb/>` decodes as ChildContent says |
| HttpOverXmppProperties.HandleAttributes | smack-experimental/src/main/java/org/jivesoftware/smackx/hoxt/provider/AbstractHttpOverXmppProvider.java:244-285 | for any chunkedBase64 or ibb start tag followed by its end tag, the payload carries the value of its first `streamId` or `sid` attribute without namespace, and null when there is none |
| HttpOverXmppProvider.AppendXmlAttributes | smack-experimental/src/main/java/org/jivesoftware/smackx/hoxt/provider/AbstractHttpOverXmppProvider.java:203-217 | appends ` name="escaped value"` for every attribute, in index order |
| HttpOverXmppProperties.AttributesXmlConcat | smack-experimental/src/main/java/org/jivesoftware/smackx/hoxt/provider/AbstractHttpOverXmppProvider.java:209-215 | the text for `a + b` is the text for `a`, then the text for `b` |
| HttpOverXmppProperties.AttributesXmlIgnoresNamespaces | smack-experimental/src/main/java/org/jivesoftware/smackx/hoxt/provider/AbstractHttpOverXmppProvider.java:204 | attributes with equal names and values give equal text, whatever their namespaces |
| HttpOverXmppProvider.ParseXml | smack-experimental/src/main/java/org/jivesoftware/smackx/hoxt/provider/AbstractHttpOverXmppProvider.java:154-201 | the loop equals XmlContent |
| HttpOverXmppProperties.XmlStepStart | smack-experimental/src/main/java/org/jivesoftware/smackx/hoxt/provider/AbstractHttpOverXmppProvider.java:167-176 | a start tag closes the open start tag, then opens `<name attrs` |
| HttpOverXmppProperties.XmlStepText | smack-experimental/src/main/java/org/jivesoftware/smackx/hoxt/provider/AbstractHttpOverXmppProvider.java:187-193 | character data closes the open start tag, then writes escaped text |
| HttpOverXmppProperties.XmlStepEnd | smack-experimental/src/main/java/org/jivesoftware/smackx/hoxt/provider/AbstractHttpOverXmppProvider.java:177-186 | an end tag writes `</name>`, or `/>` when its start tag is still open |
| HttpOverXmppProperties.XmlStepFinish | smack-experimental/src/main/java/org/jivesoftware/smackx/hoxt/provider/AbstractHttpOverXmppProvider.java:163-164 | `</xml>` ends the payload with what has been written |
| HttpOverXmppProperties.NodeContent | smack-experimental/src/main/java/org/jivesoftware/smackx/hoxt/provider/AbstractHttpOverXmppProvider.java:160-198 | the events of one tree are written as that tree's rendering |
| HttpOverXmppProperties.XmlPayloadRendered | smack-experimental/src/main/java/org/jivesoftware/smackx/hoxt/provider/AbstractHttpOverXmppProvider.java:154-201 | round trip: the events of trees then `</xml>` give exactly the trees' rendering (`<a/>` for empty elements), and the cursor ends on `</xml>` |
| HttpOverXmppProperties.NestedXmlEndsEarly | smack-experimental/src/main/java/org/jivesoftware/smackx/hoxt/provider/AbstractHttpOverXmppProvider.java:163-164 | the first `</xml>` ends the payload, even when it closes a nested `<xml>` |
| HttpOverXmppProperties.PayloadDecoded | smack-experimental/src/main/java/org/jivesoftware/smackx/hoxt/provider/AbstractHttpOverXmppProvider.java:92-107 | each of the five payload kinds is decoded by its own parser, which stops on the payload's end tag |
| HttpOverXmppProperties.DataStepChild | smack-experimental/src/main/java/org/jivesoftware/smackx/hoxt/provider/AbstractHttpOverXmppProvider.java:91-107 | a decoded payload replaces the previous one |
| HttpOverXmppProperties.DataStepReject | smack-experimental/src/main/java/org/jivesoftware/smackx/hoxt/provider/AbstractHttpOverXmppProvider.java:108-118 | `sipub` and `jingle` give UnsupportedOperationException; any other name gives IllegalArgumentException |
| HttpOverXmppProperties.DataStepText | smack-experimental/src/main/java/org/jivesoftware/smackx/hoxt/provider/AbstractHttpOverXmppProvider.java:88-125 | character data between payloads is passed over, keeping the last payload |
| HttpOverXmppProperties.DataStepFinish | smack-experimental/src/main/java/org/jivesoftware/smackx/hoxt/provider/AbstractHttpOverXmppProvider.java:120-126 | `</data>` ends the loop, wrapping the last payload |
| HttpOverXmppProperties.LastDecodedIsLast | smack-experimental/src/main/java/org/jivesoftware/smackx/hoxt/provider/AbstractHttpOverXmppProvider.java:83-126 | only the last payload decoded is kept; whitespace between payloads changes nothing |
| HttpOverXmppProvider.DataElement | smack-experimental/src/main/java/org/jivesoftware/smackx/hoxt/provider/AbstractHttpOverXmppProvider.java:82-129 | not on a start tag: null and the cursor stays; a Data only when the cursor was on a start tag, ending on `</data>` |
| XmlEvents.AttributeValue | smack-experimental/src/main/java/org/jivesoftware/smackx/hoxt/provider/AbstractHttpOverXmppProvider.java:246 | null iff no attribute has that namespace and name; otherwise the value of the first such attribute |
| HttpOverXmppProvider.ParseData | smack-experimental/src/main/java/org/jivesoftware/smackx/hoxt/provider/AbstractHttpOverXmppProvider.java:82-129 | the loop equals DataElement |
| HttpOverXmppProperties.DataDecoded | smack-experimental/src/main/java/org/jivesoftware/smackx/hoxt/provider/AbstractHttpOverXmppProvider.java:82-129 | round trip: `<data>`, well-formed payloads with any whitespace between them, `</data>` give a Data holding the last payload (null for none), the cursor on `</data>` |
| HttpOverXmppProperties.DataRejectsChild | smack-experimental/src/main/java/org/jivesoftware/smackx/hoxt/provider/AbstractHttpOverXmppProvider.java:108-118 | after well-formed payloads and whitespace, an unsupported child ends decoding with its exception |
| RegistrationProvider.Put | smack-extensions/src/main/java/org/jivesoftware/smackx/iqregister/provider/RegistrationProvider.java:58-63 | `instructions` sets the instructions only; any other name sets that field and keeps the others |
| XmlEvents.ElementEnd | smack-extensions/src/main/java/org/jivesoftware/smackx/iqregister/provider/RegistrationProvider.java:67 | the end tag an extension element is read up to lies after its start and is an end tag |
| XmlEvents.ElementExtent | smack-extensions/src/main/java/org/jivesoftware/smackx/iqregister/provider/RegistrationProvider.java:67 | reading a whole element tree stops on that element's own end tag |
| RegistrationProvider.AddExtensionElement | smack-extensions/src/main/java/org/jivesoftware/smackx/iqregister/provider/RegistrationProvider.java:67 | the element from its start to its matching end tag is appended, the cursor on that end tag |
| RegistrationProvider.QueryContent | smack-extensions/src/main/java/org/jivesoftware/smackx/iqregister/provider/RegistrationProvider.java:45-75 | success always ends on a `</query>` |
| RegistrationProvider.Parse | smack-extensions/src/main/java/org/jivesoftware/smackx/iqregister/provider/RegistrationProvider.java:40-79 | the loop equals QueryContent from nothing gathered |
| RegistrationProperties.FieldStep | smack-extensions/src/main/java/org/jivesoftware/smackx/iqregister/provider/RegistrationProvider.java:50-63 | a `<name>text</name>` field (or `<name/>`, value "") is read and put |
| RegistrationProperties.ExtensionStep | smack-extensions/src/main/java/org/jivesoftware/smackx/iqregister/provider/RegistrationProvider.java:66-68 | an element outside the register namespace is appended whole to the extensions |
| RegistrationProperties.RegistrationDecoded | smack-extensions/src/main/java/org/jivesoftware/smackx/iqregister/provider/RegistrationProvider.java:40-79 | round trip: the events of well-formed children then `</query>` give the registration the children describe, the cursor on `</query>` |
| RegistrationProperties.CollectedFields | smack-extensions/src/main/java/org/jivesoftware/smackx/iqregister/provider/RegistrationProvider.java:58-60 | a name is a field iff some field child other than `instructions` has it; the value is the last such child's |
| RegistrationProperties.CollectedInstruction | smack-extensions/src/main/java/org/jivesoftware/smackx/iqregister/provider/RegistrationProvider.java:61-63 | instructions are null iff no `instructions` child exists, else the last one's value |
| RegistrationProperties.CollectedExtensions | smack-extensions/src/main/java/org/jivesoftware/smackx/iqregister/provider/RegistrationProvider.java:66-68 | the extensions are the foreign elements, whole and in document order |
| MessageLanguages.Lookup | smack-core/src/test/java/org/jivesoftware/smack/util/PacketParserUtilsTest.java:63-215 | null iff no entry answers the request; otherwise the text of the first entry that answers |
| MessageLanguages.Languages | smack-core/src/test/java/org/jivesoftware/smack/util/PacketParserUtilsTest.java:85-144 | exactly the explicit `xml:lang` tags |
| MessageProperties.DefaultIgnoresMessageLanguage | smack-core/src/test/java/org/jivesoftware/smack/util/PacketParserUtilsTest.java:84-143 | getBody() and getBody(null) do not depend on the message's own language |
| MessageProperties.SingleEntry | smack-core/src/test/java/org/jivesoftware/smack/util/PacketParserUtilsTest.java:63-369 | one body or subject: found by default iff untagged; its tag is the only language; found for `lang` iff tagged `lang` or untagged in a `lang` message |
| MessageProperties.UntaggedThenTagged | smack-core/src/test/java/org/jivesoftware/smack/util/PacketParserUtilsTest.java:371-430 | an untagged entry then one tagged `other`: the first is the default, the second answers `other`, both are kept, only `other` is listed |
| MessageProperties.LookupAppend | smack-core/src/test/java/org/jivesoftware/smack/util/PacketParserUtilsTest.java:490-521 | a later entry never displaces an earlier answer |
| MessageProperties.LanguagesAppend | smack-core/src/test/java/org/jivesoftware/smack/util/PacketParserUtilsTest.java:523-581 | a tagged entry adds its tag to the languages; an untagged one adds nothing |
| MessageLanguages.ElementText | smack-core/src/test/java/org/jivesoftware/smack/util/PacketParserUtilsTest.java:662-710 | success ends on the body's or subject's own end tag |
| MessageLanguages.MessageContent | smack-core/src/test/java/org/jivesoftware/smack/util/PacketParserUtilsTest.java:63-581 | success ends on `</message>` and keeps the message's language |
| MessageLanguages.ParseMessage | smack-core/src/test/java/org/jivesoftware/smack/util/PacketParserUtilsTest.java:81-82 | success means the cursor was on a start tag whose `xml:lang` is the message's language |
| MessageProperties.MessageDecoded | smack-core/src/test/java/org/jivesoftware/smack/util/PacketParserUtilsTest.java:371-430 | round trip: every body and subject, in document order with its own `xml:lang`, and the message's `xml:lang` |
| MessageProperties.BodyWithChildElementRejected | smack-core/src/test/java/org/jivesoftware/smack/util/PacketParserUtilsTest.java:662-681 | a body whose content starts with an element is an XML parser error |
| MessageProperties.StrayEndTagRejected | smack-core/src/test/java/org/jivesoftware/smack/util/PacketParserUtilsTest.java:696-709 | text then `</span>` or `</message>` inside a body is an XML parser error on that end tag |
| MessageProperties.EarlyBodyEndRejected | smack-core/src/test/java/org/jivesoftware/smack/util/PacketParserUtilsTest.java:701-704 | `</body>` inside the text leaves a second `</body>` unmatched: an XML parser error |
| StanzaErrors.BuildDescriptiveTexts | smack-core/src/test/java/org/jivesoftware/smack/util/PacketParserUtilsTest.java:814-843 | IllegalArgumentException iff a text is keyed by null; otherwise every language, "" included, keeps its text |
| ResultSetManagement.FirstPageSet | smack-extensions/src/main/java/org/jivesoftware/smackx/rsm/RSMManager.java:33 | a set with that page size and no ids |
| ResultSetManagement.DirectedSet | smack-extensions/src/main/java/org/jivesoftware/smackx/rsm/RSMManager.java:54 | the id goes into `<after/>` or `<before/>` as the direction says |
| ResultSetManagement.Page | smack-extensions/src/main/java/org/jivesoftware/smackx/rsm/RSMManager.java:31-35 | a new list holding exactly one set with that page size |
| ResultSetManagement.FirstRsmElement | smack-extensions/src/main/java/org/jivesoftware/smackx/rsm/RSMManager.java:50 | the index of the first element named `set` in the RSM namespace; none iff there is no such element |
| ResultSetManagement.FindRsmSet | smack-extensions/src/main/java/org/jivesoftware/smackx/rsm/RSMManager.java:50 | null iff no RSM element exists; otherwise the set at the first one when it is a set, and ClassCastException exactly when it is not |
| ResultSetManagement.ContinueSet | smack-extensions/src/main/java/org/jivesoftware/smackx/rsm/RSMManager.java:50-54 | no set gives IllegalArgumentException; otherwise the same page size, after the returned set's last id |
| ResultSetManagement.ContinueAfterReturnedLast | smack-extensions/src/main/java/org/jivesoftware/smackx/rsm/RSMManager.java:50-54 | for a reply whose first RSM element is `s`: the next set asks, with the same page size, for what follows `s`'s last id |
| ResultSetManagement.ContinuePageInto | smack-extensions/src/main/java/org/jivesoftware/smackx/rsm/RSMManager.java:41-57 | null returned list or no set: an error and the additional list unchanged; otherwise the set is appended to the additional list (a new one if null) and that list returned |
| ResultSetManagement.ContinuePage | smack-extensions/src/main/java/org/jivesoftware/smackx/rsm/RSMManager.java:37-39 | as ContinuePageInto with no additional list: a new list holding just the continuation set |
| IotThing.PutTag | smack-experimental/src/main/java/org/jivesoftware/smackx/iot/Thing.java:84-85 | the tag is stored under its name; other keys keep their tags |
| IotThing.LatestValueWins | smack-experimental/src/main/java/org/jivesoftware/smackx/iot/Thing.java:82-115 | setting the same key twice keeps only the later value |
| IotThing.DistinctKeysCommute | smack-experimental/src/main/java/org/jivesoftware/smackx/iot/Thing.java:82-115 | setters for different keys commute |
| IotThing.PutTagValid | smack-experimental/src/main/java/org/jivesoftware/smackx/iot/Thing.java:82-115 | a setter keeps every tag under its own name, among the five names |
| IotThing.AtMostFiveTags | smack-experimental/src/main/java/org/jivesoftware/smackx/iot/Thing.java:77 | a valid tag map holds at most five tags |
| IotThing.Builder.constructor | smack-experimental/src/main/java/org/jivesoftware/smackx/iot/Thing.java:72-80 | a new builder: no tags, not self-owned, empty node info, no handler |
| IotThing.Builder.SetSerialNumber | smack-experimental/src/main/java/org/jivesoftware/smackx/iot/Thing.java:82-87 | puts `SN` as str and returns the builder |
| IotThing.Builder.SetKey | smack-experimental/src/main/java/org/jivesoftware/smackx/iot/Thing.java:89-94 | puts `KEY` as str and returns the builder |
| IotThing.Builder.SetManufacturer | smack-experimental/src/main/java/org/jivesoftware/smackx/iot/Thing.java:96-101 | puts `MAN` as str and returns the builder |
| IotThing.Builder.SetModel | smack-experimental/src/main/java/org/jivesoftware/smackx/iot/Thing.java:103-108 | puts `MODEL` as str and returns the builder |
| IotThing.Builder.SetVersion | smack-experimental/src/main/java/org/jivesoftware/smackx/iot/Thing.java:110-115 | puts `V` as num and returns the builder |
| IotThing.Builder.SetMomentaryReadOutRequestHandler | smack-experimental/src/main/java/org/jivesoftware/smackx/iot/Thing.java:117-120 | only the handler changes |
| IotThing.Builder.Build | smack-experimental/src/main/java/org/jivesoftware/smackx/iot/Thing.java:122-124 | a new Thing sharing the builder's tag map, never self-owned, with its node info and handler |
| IotThing.Thing.constructor | smack-experimental/src/main/java/org/jivesoftware/smackx/iot/Thing.java:35-42 | the Thing takes the builder's map itself and copies the other fields |
| IotThing.Thing.MetaTags | smack-experimental/src/main/java/org/jivesoftware/smackx/iot/Thing.java:44-46 | exactly the tags now in the shared map; at most five, all under the five names |
| IotThing.Thing.NodeId | smack-experimental/src/main/java/org/jivesoftware/smackx/iot/Thing.java:56-58 | the node id of the node info; none for the empty node info |
| IotThing.Thing.SourceId | smack-experimental/src/main/java/org/jivesoftware/smackx/iot/Thing.java:60-62 | the source id of the node info; none for the empty node info |
| IotThing.Thing.CacheType | smack-experimental/src/main/java/org/jivesoftware/smackx/iot/Thing.java:64-66 | the cache type of the node info; none for the empty node info |
| IotThing.SetAfterBuild | smack-experimental/src/main/java/org/jivesoftware/smackx/iot/Thing.java:36 | a setter called after build() shows in the built Thing's meta-tags |

## Left out

- Concurrency. The `synchronized` blocks and `wait`/`notify` are left out, and
  so is the reply timeout. The notifications that arrive during the wait are a
  parameter.
- SaslAuthentication.Registry.Register: states only which mechanisms the
  registry holds, not where the new one lands in the iteration order. The
  `PriorityQueue` iterator's order is not specified; it is not sorted by
  priority.
- What a mechanism sends to the server is not modelled: `authenticate`,
  `challengeReceived`, `setXMPPConnection`, the CallbackHandler, the host and
  the service name. These are calls into classes that are not part of this
  model. The two `authenticate` overloads share one method.
- `SASLMechanism.toString()` is not part of this model. `authenticateAnonymously`
  names the mechanism by the object, which is shown only as "the object
  description".
- Some helpers are not part of this model:
  - `StringUtils.escapeForXml` and `escapeForXmlText` are parameters;
  - `HeadersProvider.parse` is a parameter;
  - the extension-element provider is not modelled; an extension is kept as
    its events;
  - `PacketUtil.extensionElementFrom` is modelled as "the first element with
    that name and namespace".
- `Tag` and `NodeInfo` are reduced to what `Thing` reads of them:
  - a tag's name, kind and value;
  - the three ids of a node info.

  Null tag values are not distinguished from strings. The getters
  `isSelfOwened`, `getNodeInfo` and `getMomentaryReadOutRequestHandler` are the
  Thing's constant fields, read directly.
- IotThing.Builder.SetSerialNumber: requires `Valid()` (every tag is under its
  own name among the five, and the builder is not self-owned). The same holds
  for the other setters. Every builder meets it, because only the setters
  change those fields.
- `PacketParserUtils.parseMessage` and `Message` are not part of this model. The
  body and subject rules are modelled from what PacketParserUtilsTest.java
  asserts:
  - bodies and subjects are kept in document order;
  - the rules for getBody, getBody(lang) and getBodyLanguages;
  - rejection of mixed content and of mismatched end tags.

  When the message's language equals a body's tag, the first entry that
  answers wins, in document order. The tests do not decide that case.
- The disabled duplicate-body tests (PacketParserUtilsTest.java:432-488) are
  not modelled.
- The parts of the other tests that check re-serialisation are not modelled:
  `assertXmlSimilar` on `toXML()`.
- The other tests of that file are not modelled: presence, element parsing and
  `parseError` (PacketParserUtilsTest.java:845-856).
- A mismatched end tag inside a message is reported by the XML pull parser
  itself. It is modelled as the parse error `MismatchedEndTag`; `MixedContent`
  stands for the parser's "text expected" error.
- `parseXml` and `parse` as written:
  - `parseXml` stops at the first `</xml>`, even one that closes a nested
    `<xml>` element (NestedXmlEndsEarly);
  - `RegistrationProvider.parse` stops at the first `</query>`, so a field
    named `query` with text ends the whole query.

  The round-trip lemmas require documents without such elements.
- The RSM set's other fields (`count`, `index`, `first`, `firstIndex`) are not
  used by the manager and are not modelled.
- The context files of the repository (integration tests, IBB data listener,
  MUC light, claimed-thing element, WebSocket factory) are not modelled.
