# staxon JSON XML stream reader, modelled in Dafny

This project models `JsonXMLStreamReader` of staxon. It is the pull reader that turns the tokens of a JSON stream source into XML events:
- start and end of document;
- start and end of element, with prefix and local name;
- attributes and namespace declarations;
- character data;
- the `xml-multiple` processing instruction that marks a JSON array.

The reader is driven by the framework's `consume()`. Each call reads tokens while they are field names, `START_ARRAY` or `START_OBJECT`; the first `END_OBJECT`, `VALUE`, `END_ARRAY` or `NONE` ends the call, which then returns whether more events can follow. Such a call need not report anything: `END_ARRAY` inside an array only clears the array state and returns true, `NONE` returns false, and so does `END_ARRAY` at the root of a document array, both with no event.

The model has five modules:

- `JsonXml` (`json_xml.dfy`): the data.
  - The seven token kinds of the stream source; `NoToken` is its `NONE`.
  - The XML events.
  - The per-scope information: the last field name read (`currentTagName`) and, while the scope maps an array, the array's name and running size.
  - The reasons a read fails, and the constants `""`, `"xmlns"`, `"xml-multiple"`, `@` and `$`.
- `QNames` (`qnames.dfy`): the pure part.
  - `String.indexOf(char)`.
  - Splitting a field name at its first namespace separator, as `readStartElementTag(String)` does.
  - Classifying an `@` field as attribute, default namespace declaration or prefixed namespace declaration, as `readAttrNsDecl` does.
- `Transcoder` (`transcoder.dfy`): what one `consume()` call means, as functions of the token sequence and a `State`.
  - The state is the cursor, the scope stack (root first), the start-document flag, the `documentArray` flag and the events reported so far.
  - There is one function per branch of the `switch` and per part of `consumeName`.
  - `Step` dispatches on the current token and `Consume` repeats it. The Java self-recursion at lines 126, 143 and 156 becomes recursion that decreases the number of remaining tokens.
  - Every step promises `StepOk`: the state stays valid; the cursor only moves forward; events are only appended; the scope stack grows and shrinks exactly as the appended events open and close elements; the two flags are never reset. A step that does not end the stream moves the cursor.
- `TranscoderProps` (`transcoder_props.dfy`): one group of lemmas per token kind, stating what that token reports, which bookkeeping it changes, whether `consume()` goes on, and when it fails. There are also two whole documents: `{"alice":"bob"}` and a bare scalar.
- `StreamReader` (`stream_reader.dfy`): the class `JsonXmlStreamReader`.
  - Its fields are the token sequence and cursor, the configuration, the scope stack, the start-document flag, `documentArray` and the reported events. Its methods update these in place.
  - `Consume` is a `while` loop over `Step`. The badgerfish `@xmlns` object is read by a `while` loop over name/value pairs, as at lines 101-108.
  - Every method's postcondition says that the new state, and the result, are what the corresponding `Transcoder` function gives for the old state. So each `TranscoderProps` lemma holds for the class.

What the base class `AbstractXMLStreamReader` does with a report is modelled by appending the event. Reporting an element start also pushes the fresh `ScopeInfo` the reader hands it (lines 70 and 72), and reporting an element end pops the current scope. Starting the document sets the start-document flag.

The scope's tag name is only ever set (line 116 is its only write); nothing in the reader clears it. A later `START_OBJECT`, `START_ARRAY` or `VALUE` in the same scope therefore sees the same name again, and the model keeps this.

Failures are one `Error` value with a reason tag:
- the four messages of the source;
- `UnexpectedToken` when the stream source is asked for a token it does not hold (`name()`, `value()`, `startObject()`, `endObject()` on another token);
- `MissingElementName` for an element started with a null name;
- `EndElementAtRoot` for an element end while only the root scope is open.

## Model

| member | source | states |
|---|---|---|
| QNames.IndexOf | core/src/main/java/de/odysseus/staxon/json/JsonXMLStreamReader.java:68 | negative exactly when the character is absent; otherwise the index of its first occurrence, with no occurrence before it |
| QNames.SplitName | core/src/main/java/de/odysseus/staxon/json/JsonXMLStreamReader.java:67-74 | no separator: default prefix `""` and the whole name; otherwise prefix + separator + local == name and the prefix holds no separator, so the split is at the first separator |
| QNames.SplitQualify | core/src/main/java/de/odysseus/staxon/json/JsonXMLStreamReader.java:67-74 | round trip: splitting prefix + separator + local, for a separator-free prefix, gives back that prefix and local name |
| QNames.IndexOfQualified | core/src/main/java/de/odysseus/staxon/json/JsonXMLStreamReader.java:68 | in prefix + separator + local with a separator-free prefix, the first separator is at the prefix's length |
| QNames.AttrNsDecl | core/src/main/java/de/odysseus/staxon/json/JsonXMLStreamReader.java:76-91 | always one attribute or namespace declaration; `xmlns` without a separator is the default declaration; `xmlns` + separator + p, with the separator first found at index 5, declares p; any other name is one attribute, with the default prefix when there is no separator and otherwise a split that qualifies back to the name |
| Transcoder.Initial | core/src/main/java/de/odysseus/staxon/json/JsonXMLStreamReader.java:59-65 | the state of a new reader is valid whatever the tokens: the cursor is inside them and the root scope is present |
| Transcoder.StartElementTag | core/src/main/java/de/odysseus/staxon/json/JsonXMLStreamReader.java:67-74 | reports one start element with the split name, pushes a fresh scope, and raises the element depth by one |
| Transcoder.EndElementTag | core/src/main/java/de/odysseus/staxon/json/JsonXMLStreamReader.java:163 | fails exactly at the root; otherwise reports the end element and pops the scope |
| Transcoder.IncArraySize | core/src/main/java/de/odysseus/staxon/json/JsonXMLStreamReader.java:150 | the array keeps its name and its size grows by exactly one; the tag name is kept |
| Transcoder.CountArrayElement | core/src/main/java/de/odysseus/staxon/json/JsonXMLStreamReader.java:149-151 | only the scope stack changes, and its height stays the same |
| Transcoder.NamespacePairs | core/src/main/java/de/odysseus/staxon/json/JsonXMLStreamReader.java:101-108 | on success the cursor never moves backward, events were only appended with the element depth unchanged, nothing else changed, and the next token is not a name |
| Transcoder.NamespacePair | core/src/main/java/de/odysseus/staxon/json/JsonXMLStreamReader.java:102-107 | on success exactly two tokens are consumed, events are only appended with the element depth unchanged, and nothing else changes |
| Transcoder.Badgerfish | core/src/main/java/de/odysseus/staxon/json/JsonXMLStreamReader.java:100-109 | on success the cursor has moved forward, events were only appended with the element depth unchanged, and scopes and flags are unchanged |
| Transcoder.AttributeField | core/src/main/java/de/odysseus/staxon/json/JsonXMLStreamReader.java:96-112 | on success the cursor has moved forward, events were only appended with the element depth unchanged, and scopes and flags are unchanged |
| Transcoder.TextFieldValue | core/src/main/java/de/odysseus/staxon/json/JsonXMLStreamReader.java:113-114 | on success the cursor has moved forward, events were only appended with the element depth unchanged, and scopes and flags are unchanged |
| Transcoder.ConsumeName | core/src/main/java/de/odysseus/staxon/json/JsonXMLStreamReader.java:93-118 | a name is a valid step that never returns to the framework and never changes the height of the scope stack |
| Transcoder.OnStartArray | core/src/main/java/de/odysseus/staxon/json/JsonXMLStreamReader.java:127-143 | a valid step that never returns and never changes the scope stack's height |
| Transcoder.OnStartObject | core/src/main/java/de/odysseus/staxon/json/JsonXMLStreamReader.java:144-156 | never fails and never returns; the scope stack follows the element events |
| Transcoder.OnEndObject | core/src/main/java/de/odysseus/staxon/json/JsonXMLStreamReader.java:157-165 | a valid step that always returns to the framework |
| Transcoder.ReportValue | core/src/main/java/de/odysseus/staxon/json/JsonXMLStreamReader.java:173-181 | fails exactly when the name is null and the reader is not at the root before the document starts; otherwise only events change, and the element depth is unchanged (start and end are balanced) |
| Transcoder.OnValue | core/src/main/java/de/odysseus/staxon/json/JsonXMLStreamReader.java:166-182 | on success returns true and keeps the scope stack's height |
| Transcoder.OnEndArray | core/src/main/java/de/odysseus/staxon/json/JsonXMLStreamReader.java:183-192 | on success returns to the framework and keeps the scope stack's height |
| Transcoder.Step | core/src/main/java/de/odysseus/staxon/json/JsonXMLStreamReader.java:122-197 | every token is a valid step: cursor forward, events appended, scope stack in step with the element depth, flags never reset |
| Transcoder.Consume | core/src/main/java/de/odysseus/staxon/json/JsonXMLStreamReader.java:121-198 | a whole call keeps the state valid and extends it as each step does, and has moved the cursor whenever it promises more events |
| TranscoderProps.NamespacePairsReportsEachPair | core/src/main/java/de/odysseus/staxon/json/JsonXMLStreamReader.java:101-108 | a run of name/value pairs ending at a non-name reports exactly one declaration per pair, in order, and stops after the last value |
| TranscoderProps.BadgerfishReportsDeclarations | core/src/main/java/de/odysseus/staxon/json/JsonXMLStreamReader.java:100-109 | an object of name/value pairs reports one declaration per pair and leaves the cursor after the object's end |
| TranscoderProps.XmlnsObjectReportsDeclarations | core/src/main/java/de/odysseus/staxon/json/JsonXMLStreamReader.java:95-109 | `@xmlns` followed by an object of pairs reports one namespace declaration per pair and no element, and `consume()` goes on |
| TranscoderProps.AttributeNameWithValue | core/src/main/java/de/odysseus/staxon/json/JsonXMLStreamReader.java:95-98 | `@` name then a value: exactly one attribute or namespace-declaration event, no element, two tokens consumed, nothing else changed |
| TranscoderProps.AttributeNameWithoutValue | core/src/main/java/de/odysseus/staxon/json/JsonXMLStreamReader.java:97-112 | `@` name without a value fails with "Expected attribute value", unless it is `@xmlns`; `@xmlns` followed by neither a value nor an object fails on that token |
| TranscoderProps.TextNameReportsCharacters | core/src/main/java/de/odysseus/staxon/json/JsonXMLStreamReader.java:113-114 | `$` then a value reports only that characters event; `$` without a value fails |
| TranscoderProps.PlainNameSetsTagName | core/src/main/java/de/odysseus/staxon/json/JsonXMLStreamReader.java:115-117 | any other name succeeds, reports nothing, and only sets the current scope's tag name; the outer scopes and the flags are unchanged |
| TranscoderProps.ContinuingTokens | core/src/main/java/de/odysseus/staxon/json/JsonXMLStreamReader.java:124-156 | NAME, START_ARRAY and START_OBJECT never end a `consume()` call: its result is that of the rest of the tokens, or the step's failure |
| TranscoderProps.StartArrayEffect | core/src/main/java/de/odysseus/staxon/json/JsonXMLStreamReader.java:127-143 | fails inside an array; at the root before the document starts, sets `documentArray` and leaves the scopes; elsewhere fails without a tag name and else makes the current scope an array of that name with size 0, leaving the outer scopes as they were; the PI with the tag name is reported if and only if `multiplePI` is set |
| TranscoderProps.CountArrayElementEffect | core/src/main/java/de/odysseus/staxon/json/JsonXMLStreamReader.java:149-151 | an array scope's size grows by one, keeping its name and the tag name; a non-array scope and the outer scopes are unchanged |
| TranscoderProps.StartObjectEffect | core/src/main/java/de/odysseus/staxon/json/JsonXMLStreamReader.java:144-156 | consumes one token, never changes `documentArray`, and goes on; at the root before the document starts, only the document start is reported; elsewhere the array size grows by one in an array scope, and a start element with the split tag name and a new scope appear if and only if the tag name is set |
| TranscoderProps.ReportValueEvents | core/src/main/java/de/odysseus/staxon/json/JsonXMLStreamReader.java:173-181 | at the root before the document starts, only characters; with a name, start element, characters unless the value is null, end element; without a name, failure |
| TranscoderProps.ValueEffect | core/src/main/java/de/odysseus/staxon/json/JsonXMLStreamReader.java:166-182 | VALUE returns true with one token consumed and the flags unchanged; the outer scopes are unchanged; in an array scope the size grows by one and the tag name is kept; otherwise the scopes are unchanged |
| TranscoderProps.ValueReports | core/src/main/java/de/odysseus/staxon/json/JsonXMLStreamReader.java:166-181 | the events VALUE reports: only characters at the root before the document starts; otherwise a balanced start element, characters unless null, end element, named by the array or the tag name; failure without a name |
| TranscoderProps.EndObjectEffect | core/src/main/java/de/odysseus/staxon/json/JsonXMLStreamReader.java:157-165 | at the root after the document starts, reports the document end and returns `documentArray`; below the root, reports an end element, pops the scope and returns true |
| TranscoderProps.EndArrayEffect | core/src/main/java/de/odysseus/staxon/json/JsonXMLStreamReader.java:183-192 | at the root of a document array returns false; outside an array fails; otherwise consumes the token, clears the array state without popping the scope, leaves the outer scopes, both flags and the events as they were, and returns true |
| TranscoderProps.NoTokenEndsStream | core/src/main/java/de/odysseus/staxon/json/JsonXMLStreamReader.java:193-194 | NONE returns false and changes nothing |
| TranscoderProps.ArrayInsideArrayFails | core/src/main/java/de/odysseus/staxon/json/JsonXMLStreamReader.java:129-131 | an array start directly inside an array makes the whole call fail |
| TranscoderProps.AliceValueStep | core/src/main/java/de/odysseus/staxon/json/JsonXMLStreamReader.java:166-182 | the value of `{"alice":"bob"}` becomes `<alice>bob</alice>` and returns true |
| TranscoderProps.FlatObjectFirstCall | core/src/main/java/de/odysseus/staxon/json/JsonXMLStreamReader.java:121-182 | the first `consume()` on `{"alice":"bob"}` reports the document start, start element, characters and end element, and returns true |
| TranscoderProps.FlatObjectSecondCall | core/src/main/java/de/odysseus/staxon/json/JsonXMLStreamReader.java:157-161 | the second `consume()` on it reports the document end and returns false |
| TranscoderProps.RootScalarDocument | core/src/main/java/de/odysseus/staxon/json/JsonXMLStreamReader.java:173-174 | a bare scalar is reported as characters only, then the stream ends |
| StreamReader.JsonXmlStreamReader.constructor | core/src/main/java/de/odysseus/staxon/json/JsonXMLStreamReader.java:59-65 | the new reader holds the given source and configuration and is in the initial state |
| StreamReader.JsonXmlStreamReader.Peek | core/src/main/java/de/odysseus/staxon/json/JsonXMLStreamReader.java:123 | the current token, `NONE` past the end |
| StreamReader.JsonXmlStreamReader.SetCurrent | core/src/main/java/de/odysseus/staxon/json/JsonXMLStreamReader.java:116 | replaces the current scope's information and changes nothing else |
| StreamReader.JsonXmlStreamReader.CountArrayElement | core/src/main/java/de/odysseus/staxon/json/JsonXMLStreamReader.java:149-151 | the state after counting one array element |
| StreamReader.JsonXmlStreamReader.ReadStartElementTag | core/src/main/java/de/odysseus/staxon/json/JsonXMLStreamReader.java:67-74 | the `indexOf`/`substring` code reports the split name and pushes a fresh scope, as `StartElementTag` gives |
| StreamReader.JsonXmlStreamReader.ReadEndElementTag | core/src/main/java/de/odysseus/staxon/json/JsonXMLStreamReader.java:163 | fails at the root and leaves the state; otherwise reports the end and pops the scope |
| StreamReader.JsonXmlStreamReader.ReadAttrNsDecl | core/src/main/java/de/odysseus/staxon/json/JsonXMLStreamReader.java:76-91 | the branch-by-branch code appends exactly the event `AttrNsDecl` classifies, and changes nothing else |
| StreamReader.JsonXmlStreamReader.ConsumeName | core/src/main/java/de/odysseus/staxon/json/JsonXMLStreamReader.java:93-118 | the new state and the result are those of `Transcoder.ConsumeName` |
| StreamReader.JsonXmlStreamReader.ReadAttributeField | core/src/main/java/de/odysseus/staxon/json/JsonXMLStreamReader.java:96-112 | the new state or the failure is that of `Transcoder.AttributeField` |
| StreamReader.JsonXmlStreamReader.ReadTextField | core/src/main/java/de/odysseus/staxon/json/JsonXMLStreamReader.java:113-114 | the new state or the failure is that of `Transcoder.TextFieldValue` |
| StreamReader.JsonXmlStreamReader.ReadNamespaceObject | core/src/main/java/de/odysseus/staxon/json/JsonXMLStreamReader.java:100-109 | the new state or the failure is that of `Transcoder.Badgerfish` |
| StreamReader.JsonXmlStreamReader.ReadNamespacePairs | core/src/main/java/de/odysseus/staxon/json/JsonXMLStreamReader.java:101-108 | the loop over pairs ends in the state, or fails as, `Transcoder.NamespacePairs` gives |
| StreamReader.JsonXmlStreamReader.ReadNamespacePair | core/src/main/java/de/odysseus/staxon/json/JsonXMLStreamReader.java:102-107 | one pair, as `Transcoder.NamespacePair` gives |
| StreamReader.JsonXmlStreamReader.OnStartArray | core/src/main/java/de/odysseus/staxon/json/JsonXMLStreamReader.java:127-143 | the new state and the result are those of `Transcoder.OnStartArray` |
| StreamReader.JsonXmlStreamReader.OnStartObject | core/src/main/java/de/odysseus/staxon/json/JsonXMLStreamReader.java:144-156 | the new state and the result are those of `Transcoder.OnStartObject` |
| StreamReader.JsonXmlStreamReader.OnEndObject | core/src/main/java/de/odysseus/staxon/json/JsonXMLStreamReader.java:157-165 | the new state and the result are those of `Transcoder.OnEndObject` |
| StreamReader.JsonXmlStreamReader.ReadValueElement | core/src/main/java/de/odysseus/staxon/json/JsonXMLStreamReader.java:176-180 | start element, characters unless null, end element, as `Transcoder.ValueElement` gives |
| StreamReader.JsonXmlStreamReader.OnValue | core/src/main/java/de/odysseus/staxon/json/JsonXMLStreamReader.java:166-182 | the new state and the result are those of `Transcoder.OnValue` |
| StreamReader.JsonXmlStreamReader.ReportValue | core/src/main/java/de/odysseus/staxon/json/JsonXMLStreamReader.java:173-181 | the new state or the failure is that of `Transcoder.ReportValue` |
| StreamReader.JsonXmlStreamReader.OnEndArray | core/src/main/java/de/odysseus/staxon/json/JsonXMLStreamReader.java:183-192 | the new state and the result are those of `Transcoder.OnEndArray` |
| StreamReader.JsonXmlStreamReader.Step | core/src/main/java/de/odysseus/staxon/json/JsonXMLStreamReader.java:122-197 | the `switch` on the current token, as `Transcoder.Step` gives |
| StreamReader.JsonXmlStreamReader.Consume | core/src/main/java/de/odysseus/staxon/json/JsonXMLStreamReader.java:121-198 | the loop ends with the state and the result, or the failure, of `Transcoder.Consume` |

## Left out

- `close()` (lines 200-208) is not modelled: it releases the stream source and wraps its `IOException`, which is I/O.
- The JSON tokenizer behind `JsonStreamSource` is not part of this model. The source is a finite sequence of tokens with a cursor: `peek()` reads the token at the cursor and the other calls move past it.
- The internals of `AbstractXMLStreamReader` are not part of this model: its event queue, attribute buffering, pull getters and `initialize()`. The constructor therefore does not run `initialize()`, and a report is modelled by appending the event, as described above.
- `IOException`, `IllegalStateException`, `XMLStreamException` and the exception raised for a null element name are one `Error` result carrying a reason, not distinct exception types.
- The `default:` branch of the `switch` (lines 195-196) is unreachable in the model: the token datatype has exactly the seven kinds handled there.
- The null namespace URI passed with start elements and attributes (lines 70, 72, 82, 88) is not carried in the events.
- Transcoder.IncArraySize: the array size is an unbounded `nat`, so Java's `int` wrap-around after 2^31 - 1 array elements is not modelled.
- No XML name validity is checked, because the code checks none.
