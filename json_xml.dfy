/** The data the JSON-to-XML reader works on: the tokens it pulls from its
    JSON stream source, the XML events it reports, the per-scope bookkeeping
    and the reasons a read can fail. */
module JsonXml {
  import opened Wrappers

  /** One token of the JSON stream source, with its payload.
      `NoToken` is the source's NONE: the end of the input. */
  datatype Token =
    | Name(name: string)
    | Value(value: Option<string>)
    | StartObject
    | EndObject
    | StartArray
    | EndArray
    | NoToken

  /** One XML event reported to the pull-reader framework. */
  datatype Event =
    | StartDocument
    | EndDocument
    | StartElement(prefix: string, localName: string)
    | EndElement
    | Attribute(prefix: string, localName: string, value: Option<string>)
    | NamespaceDecl(prefix: string, uri: Option<string>)
    | Characters(text: Option<string>)
    | ProcessingInstruction(target: string, data: Option<string>)

  /** The repeated-element bookkeeping of a scope that is mapping a JSON array. */
  datatype ArrayState = ArrayState(name: string, size: nat)

  /** Per-scope information: the last field name read in this scope and,
      while the scope maps an array, that array's name and running size.
      The scope is an array scope exactly when `arrayState` is present. */
  datatype ScopeInfo = ScopeInfo(currentTagName: Option<string>, arrayState: Option<ArrayState>)
  {
    predicate IsArray() {
      arrayState.Some?
    }
  }

  /** The information of a newly opened scope: no tag name, no array. */
  const FreshScope := ScopeInfo(None, None)

  /** Why a read failed. The source throws IOException, IllegalStateException
      or XMLStreamException; the model keeps only the reason. */
  datatype Error =
    | ArrayStartInsideArray     // "Array start inside array"
    | ArrayNameMissing          // "Array name missing"
    | ArrayEndWithoutStart      // "Array end without matching start"
    | ExpectedAttributeValue    // "Expected attribute value"
    | UnexpectedToken(found: Token)  // the stream source was asked for a token it does not hold
    | MissingElementName        // an element is started with a null name
    | EndElementAtRoot          // an element is ended while the root scope is current

  /** The default (empty) namespace prefix. */
  const DefaultNsPrefix: string := ""

  /** The reserved attribute name of namespace declarations. */
  const Xmlns: string := "xmlns"

  /** The target of the processing instruction that signals an array start. */
  const MultiplePiTarget: string := "xml-multiple"

  /** The attribute sigil and the text sigil of field names. */
  const AttributeSigil: char := '@'
  const TextField: string := "$"
}
