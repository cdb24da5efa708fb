/** JsonXMLStreamReader: the reader object that pulls tokens from its JSON
    stream source and reports XML events, by mutating its own state. Each
    method is proved against the function of module Transcoder that gives
    its meaning. */
module StreamReader {
  import opened Wrappers
  import opened JsonXml
  import QNames
  import T = Transcoder

  /** What a token step tells consume(): take the next token, or return to
      the framework with the given result. */
  datatype Signal = Continue | Return(more: bool)

  class JsonXmlStreamReader {
    // The stream source: its tokens and a cursor.
    const tokens: seq<Token>
    var pos: nat

    // Configuration.
    const multiplePI: bool
    const namespaceSeparator: char

    // The framework's scope stack (root first) and start-document flag.
    var scopes: seq<ScopeInfo>
    var startDocumentRead: bool

    // Whether the document is a bare top-level array.
    var documentArray: bool

    // The events reported to the framework so far.
    var events: seq<Event>

    function Config(): T.Config {
      T.Config(multiplePI, namespaceSeparator)
    }

    function State(): T.State
      reads this
    {
      T.State(pos, scopes, startDocumentRead, documentArray, events)
    }

    ghost predicate Valid()
      reads this
    {
      T.Valid(tokens, State())
    }

    /** The reader's state now is the one `spec` gives, and `r` reports what
        `spec` reports. */
    ghost predicate Follows(r: Result<Signal, Error>, spec: Result<T.Next, Error>)
      reads this
    {
      if spec.Failure? then r == Failure(spec.error)
      else
        && r == Success(if spec.value.Continue? then Continue else Return(spec.value.more))
        && State() == spec.value.st
        && Valid()
    }

    constructor (tokens: seq<Token>, multiplePI: bool, namespaceSeparator: char)
      ensures Valid() && State() == T.Initial()
      ensures this.tokens == tokens && this.multiplePI == multiplePI
      ensures this.namespaceSeparator == namespaceSeparator
    {
      this.tokens := tokens;
      this.multiplePI := multiplePI;
      this.namespaceSeparator := namespaceSeparator;
      pos := 0;
      scopes := [FreshScope];
      startDocumentRead := false;
      documentArray := false;
      events := [];
    }

    /** The stream source's peek(): the current token, NONE past the end. */
    method Peek() returns (t: Token)
      ensures t == T.Peek(tokens, pos)
    {
      t := if pos < |tokens| then tokens[pos] else NoToken;
    }

    /** Replace the current scope's information. */
    method SetCurrent(info: ScopeInfo)
      requires Valid()
      modifies this
      ensures Valid() && State() == T.SetCurrent(old(State()), info)
    {
      scopes := scopes[..|scopes| - 1] + [info];
    }

    /** An array scope counts one more element. */
    method CountArrayElement()
      requires Valid()
      modifies this
      ensures Valid() && State() == T.CountArrayElement(old(State()))
    {
      var info := scopes[|scopes| - 1];
      if info.IsArray() {
        SetCurrent(T.IncArraySize(info));
      }
    }

    /** readStartElementTag(String): split the name at its first separator,
        report the start element and open a fresh scope. */
    method ReadStartElementTag(name: string)
      requires Valid()
      modifies this
      ensures Valid() && State() == T.StartElementTag(Config(), old(State()), name)
    {
      var separator := QNames.IndexOf(name, namespaceSeparator);
      if separator < 0 {
        events := events + [StartElement(DefaultNsPrefix, name)];
      } else {
        events := events + [StartElement(name[..separator], name[separator + 1..])];
      }
      scopes := scopes + [FreshScope];
    }

    /** The framework's readEndElementTag(): report the end and close the
        current scope, which must not be the root. */
    method ReadEndElementTag() returns (o: Outcome<Error>)
      requires Valid()
      modifies this
      ensures match T.EndElementTag(old(State()))
        case Failure(e) => o == Fail(e) && State() == old(State())
        case Success(st) => o == Pass && State() == st && Valid()
    {
      if |scopes| == 1 {
        return Fail(EndElementAtRoot);
      }
      events := events + [EndElement];
      scopes := scopes[..|scopes| - 1];
      return Pass;
    }

    /** readAttrNsDecl: report an attribute field as a namespace declaration
        or as an attribute. */
    method ReadAttrNsDecl(name: string, value: Option<string>)
      modifies this
      ensures State() == old(State()).(events := old(events) + [QNames.AttrNsDecl(name, value, namespaceSeparator)])
    {
      var separator := QNames.IndexOf(name, namespaceSeparator);
      if separator < 0 {
        if name == Xmlns {
          events := events + [NamespaceDecl(DefaultNsPrefix, value)];
        } else {
          events := events + [Attribute(DefaultNsPrefix, name, value)];
        }
      } else {
        if |name| >= |Xmlns| && name[..|Xmlns|] == Xmlns && separator == |Xmlns| {
          events := events + [NamespaceDecl(name[separator + 1..], value)];
        } else {
          events := events + [Attribute(name[..separator], name[separator + 1..], value)];
        }
      }
    }

    /** consumeName: read a field name and act on it. */
    method ConsumeName() returns (r: Result<Signal, Error>)
      requires Valid() && T.Peek(tokens, pos).Name?
      modifies this
      ensures Follows(r, T.ConsumeName(Config(), tokens, old(State())))
    {
      var fieldName := tokens[pos].name;
      pos := pos + 1;
      assert State() == T.Advance(old(State()));
      if |fieldName| > 0 && fieldName[0] == AttributeSigil {
        var o := ReadAttributeField(fieldName[1..]);
        if o.Fail? {
          return Failure(o.error);
        }
      } else if fieldName == TextField {
        var o := ReadTextField();
        if o.Fail? {
          return Failure(o.error);
        }
      } else {
        var info := scopes[|scopes| - 1];
        SetCurrent(info.(currentTagName := Some(fieldName)));
      }
      return Success(Continue);
    }

    /** The token after an `@` field's name, the sigil already removed. */
    method ReadAttributeField(attr: string) returns (o: Outcome<Error>)
      requires Valid()
      modifies this
      ensures match T.AttributeField(Config(), tokens, old(State()), attr)
        case Failure(e) => o == Fail(e)
        case Success(st) => o == Pass && State() == st && Valid()
    {
      var t := Peek();
      if t.Value? {
        pos := pos + 1;
        ReadAttrNsDecl(attr, t.value);
        o := Pass;
      } else if attr == Xmlns {
        o := ReadNamespaceObject();
      } else {
        o := Fail(ExpectedAttributeValue);
      }
    }

    /** The token after a `$` field's name: its value as character data. */
    method ReadTextField() returns (o: Outcome<Error>)
      requires Valid()
      modifies this
      ensures match T.TextFieldValue(tokens, old(State()))
        case Failure(e) => o == Fail(e)
        case Success(st) => o == Pass && State() == st && Valid()
    {
      var t := Peek();
      if !t.Value? {
        return Fail(UnexpectedToken(t));
      }
      pos := pos + 1;
      events := events + [Characters(t.value)];
      return Pass;
    }

    /** The badgerfish branch of consumeName: an object of prefix/URI pairs
        under `@xmlns`, each reported as a namespace declaration. */
    method ReadNamespaceObject() returns (o: Outcome<Error>)
      requires Valid()
      modifies this
      ensures match T.Badgerfish(tokens, old(State()))
        case Failure(e) => o == Fail(e)
        case Success(st) => o == Pass && State() == st && Valid()
    {
      var t := Peek();
      if t != StartObject {
        return Fail(UnexpectedToken(t));
      }
      pos := pos + 1;
      ghost var body := State();
      assert body == T.Advance(old(State()));
      o := ReadNamespacePairs();
      if o.Fail? {
        return;
      }
      assert T.NamespacePairs(tokens, body) == Success(State());
      t := Peek();
      if t != EndObject {
        return Fail(UnexpectedToken(t));
      }
      pos := pos + 1;
    }

    /** The badgerfish object's body: name/value pairs up to the first token
        that is not a name, `$` standing for the default prefix. */
    method ReadNamespacePairs() returns (o: Outcome<Error>)
      requires Valid()
      modifies this
      ensures match T.NamespacePairs(tokens, old(State()))
        case Failure(e) => o == Fail(e)
        case Success(st) => o == Pass && State() == st && Valid()
    {
      var t := Peek();
      while t.Name?
        invariant Valid() && t == T.Peek(tokens, pos)
        invariant T.NamespacePairs(tokens, State()) == T.NamespacePairs(tokens, old(State()))
        decreases |tokens| - pos
      {
        o := ReadNamespacePair();
        if o.Fail? {
          return;
        }
        t := Peek();
      }
      return Pass;
    }

    /** One name/value pair of the badgerfish object. */
    method ReadNamespacePair() returns (o: Outcome<Error>)
      requires Valid() && T.Peek(tokens, pos).Name?
      modifies this
      ensures match T.NamespacePair(tokens, old(State()))
        case Failure(e) => o == Fail(e)
        case Success(st) => o == Pass && State() == st && Valid()
    {
      var prefix := tokens[pos].name;
      pos := pos + 1;
      var v := Peek();
      if !v.Value? {
        return Fail(UnexpectedToken(v));
      }
      pos := pos + 1;
      if prefix == TextField {
        events := events + [NamespaceDecl(DefaultNsPrefix, v.value)];
      } else {
        events := events + [NamespaceDecl(prefix, v.value)];
      }
      return Pass;
    }

    /** START_ARRAY. */
    method OnStartArray() returns (r: Result<Signal, Error>)
      requires Valid() && T.Peek(tokens, pos) == StartArray
      modifies this
      ensures Follows(r, T.OnStartArray(Config(), tokens, old(State())))
    {
      pos := pos + 1;
      assert State() == T.Advance(old(State()));
      var info := scopes[|scopes| - 1];
      if info.IsArray() {
        return Failure(ArrayStartInsideArray);
      }
      if |scopes| == 1 && !startDocumentRead {
        documentArray := true;
      } else {
        if info.currentTagName.None? {
          return Failure(ArrayNameMissing);
        }
        SetCurrent(info.(arrayState := Some(ArrayState(info.currentTagName.value, 0))));
      }
      if multiplePI {
        events := events + [ProcessingInstruction(MultiplePiTarget, info.currentTagName)];
      }
      return Success(Continue);
    }

    /** START_OBJECT. */
    method OnStartObject() returns (r: Result<Signal, Error>)
      requires Valid() && T.Peek(tokens, pos) == StartObject
      modifies this
      ensures Follows(r, T.OnStartObject(Config(), tokens, old(State())))
    {
      pos := pos + 1;
      assert State() == T.Advance(old(State()));
      var info := scopes[|scopes| - 1];
      if |scopes| == 1 && !startDocumentRead {
        events := events + [StartDocument];
        startDocumentRead := true;
      } else {
        CountArrayElement();
        if info.currentTagName.Some? {
          ReadStartElementTag(info.currentTagName.value);
        }
      }
      return Success(Continue);
    }

    /** END_OBJECT. */
    method OnEndObject() returns (r: Result<Signal, Error>)
      requires Valid() && T.Peek(tokens, pos) == EndObject
      modifies this
      ensures Follows(r, T.OnEndObject(tokens, old(State())))
    {
      pos := pos + 1;
      assert State() == T.Advance(old(State()));
      if |scopes| == 1 && startDocumentRead {
        events := events + [EndDocument];
        return Success(Return(documentArray));
      }
      var o := ReadEndElementTag();
      if o.Fail? {
        return Failure(o.error);
      }
      return Success(Return(true));
    }

    /** A scalar field as one element: start, text unless null, end. */
    method ReadValueElement(name: string, text: Option<string>)
      requires Valid()
      modifies this
      ensures Valid() && State() == T.ValueElement(Config(), old(State()), name, text)
    {
      ReadStartElementTag(name);
      if text.Some? {
        events := events + [Characters(text)];
      }
      var o := ReadEndElementTag();
    }

    /** VALUE. */
    method OnValue() returns (r: Result<Signal, Error>)
      requires Valid() && T.Peek(tokens, pos).Value?
      modifies this
      ensures Follows(r, T.OnValue(Config(), tokens, old(State())))
    {
      var text := tokens[pos].value;
      pos := pos + 1;
      assert State() == T.Advance(old(State()));
      var info := scopes[|scopes| - 1];
      var name := info.currentTagName;
      if info.IsArray() {
        name := Some(info.arrayState.value.name);
      }
      CountArrayElement();
      ghost var st2 := State();
      assert T.OnValue(Config(), tokens, old(State())) ==
        (var v := T.ReportValue(Config(), st2, name, text);
         if v.Failure? then Failure(v.error) else Success(T.Return(v.value, true)));
      var o := ReportValue(name, text);
      if o.Fail? {
        return Failure(o.error);
      }
      return Success(Return(true));
    }

    /** The rest of VALUE once the array size is counted. */
    method ReportValue(name: Option<string>, text: Option<string>) returns (o: Outcome<Error>)
      requires Valid()
      modifies this
      ensures match T.ReportValue(Config(), old(State()), name, text)
        case Failure(e) => o == Fail(e)
        case Success(st) => o == Pass && State() == st && Valid()
    {
      if |scopes| == 1 && !startDocumentRead {
        events := events + [Characters(text)];
      } else {
        if name.None? {
          return Fail(MissingElementName);
        }
        ReadValueElement(name.value, text);
      }
      return Pass;
    }

    /** END_ARRAY. */
    method OnEndArray() returns (r: Result<Signal, Error>)
      requires Valid() && T.Peek(tokens, pos) == EndArray
      modifies this
      ensures Follows(r, T.OnEndArray(tokens, old(State())))
    {
      pos := pos + 1;
      assert State() == T.Advance(old(State()));
      if |scopes| == 1 && documentArray {
        return Success(Return(false));
      }
      var info := scopes[|scopes| - 1];
      if !info.IsArray() {
        return Failure(ArrayEndWithoutStart);
      }
      SetCurrent(info.(arrayState := None));
      return Success(Return(true));
    }

    /** One branch of consume()'s switch, chosen by the current token. */
    method Step() returns (r: Result<Signal, Error>)
      requires Valid()
      modifies this
      ensures Follows(r, T.Step(Config(), tokens, old(State())))
    {
      var t := Peek();
      match t
      case Name(_) => r := ConsumeName();
      case StartArray => r := OnStartArray();
      case StartObject => r := OnStartObject();
      case EndObject => r := OnEndObject();
      case Value(_) => r := OnValue();
      case EndArray => r := OnEndArray();
      case NoToken => r := Success(Return(false));
    }

    /** consume(): take tokens until one of them returns to the framework;
        the result says whether more events can follow. */
    method Consume() returns (r: Result<bool, Error>)
      requires Valid()
      modifies this
      ensures match T.Consume(Config(), tokens, old(State()))
        case Failure(e) => r == Failure(e)
        case Success(c) => r == Success(c.more) && State() == c.st && Valid()
    {
      while true
        invariant Valid()
        invariant T.Consume(Config(), tokens, State()) == T.Consume(Config(), tokens, old(State()))
        decreases |tokens| - pos
      {
        var s := Step();
        match s
        case Failure(e) => return Failure(e);
        case Success(Return(more)) => return Success(more);
        case Success(Continue) =>
      }
    }
  }
}
