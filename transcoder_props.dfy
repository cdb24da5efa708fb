/** What each kind of token does to the reader, stated on the functions of
    module Transcoder: the events it reports, the scope bookkeeping it
    changes, whether consume() goes on or returns, and when it fails. */
module TranscoderProps {
  import opened Wrappers
  import opened JsonXml
  import QNames
  import opened Transcoder

  // ---------------------------------------------------------------------
  // NAME

  /** The tokens of a badgerfish namespace object's body. */
  function PairTokens(ps: seq<(string, Option<string>)>): (toks: seq<Token>)
    ensures |toks| == 2 * |ps|
  {
    if ps == [] then [] else [Name(ps[0].0), Value(ps[0].1)] + PairTokens(ps[1..])
  }

  /** The namespace declarations those pairs stand for, `$` being the
      default prefix. */
  function PairDecls(ps: seq<(string, Option<string>)>): (es: seq<Event>)
    ensures |es| == |ps|
  {
    if ps == [] then []
    else [NamespaceDecl(if ps[0].0 == TextField then DefaultNsPrefix else ps[0].0, ps[0].1)] + PairDecls(ps[1..])
  }

  /** A window of pair tokens starts with the first pair's name and value,
      and the rest of the window holds the other pairs. */
  lemma PairTokensHead(toks: seq<Token>, from: nat, ps: seq<(string, Option<string>)>, end: nat)
    requires end == from + 2 * |ps| <= |toks| && toks[from..end] == PairTokens(ps) && ps != []
    ensures toks[from] == Name(ps[0].0) && toks[from + 1] == Value(ps[0].1)
    ensures toks[from + 2..end] == PairTokens(ps[1..])
  {
    var w := PairTokens(ps);
    assert w == [Name(ps[0].0), Value(ps[0].1)] + PairTokens(ps[1..]);
    assert toks[from] == w[0] && toks[from + 1] == w[1];
    assert toks[from + 2..end] == toks[from..end][2..];
  }

  /** A name followed by a value in a badgerfish object's body: its
      declaration is reported and the body goes on after the value. */
  lemma NamespacePairsFirst(toks: seq<Token>, st: State, prefix: string, uri: Option<string>)
    requires Valid(toks, st)
    requires Peek(toks, st.pos) == Name(prefix) && Peek(toks, st.pos + 1) == Value(uri)
    ensures NamespacePairs(toks, st) ==
      NamespacePairs(toks, st.(pos := st.pos + 2, events := st.events + PairDecls([(prefix, uri)])))
  {
    var decl := NamespaceDecl(if prefix == TextField then DefaultNsPrefix else prefix, uri);
    assert PairDecls([(prefix, uri)]) == [decl];
    assert NamespacePair(toks, st) == Success(st.(pos := st.pos + 2, events := st.events + [decl]));
  }

  lemma PairDeclsSplit(ps: seq<(string, Option<string>)>)
    requires ps != []
    ensures PairDecls(ps) == PairDecls([ps[0]]) + PairDecls(ps[1..])
  {
    assert [ps[0]][1..] == [];
  }

  /** The body of a badgerfish object reports one namespace declaration per
      name/value pair and stops at the first token that is not a name. */
  lemma {:induction false} NamespacePairsReportsEachPair(toks: seq<Token>, st: State, ps: seq<(string, Option<string>)>, end: nat)
    requires Valid(toks, st) && end == st.pos + 2 * |ps| <= |toks|
    requires toks[st.pos..end] == PairTokens(ps)
    requires !Peek(toks, end).Name?
    ensures NamespacePairs(toks, st) == Success(st.(pos := end, events := st.events + PairDecls(ps)))
    decreases |ps|
  {
    if ps == [] {
      assert st.(pos := end, events := st.events + []) == st;
    } else {
      var st1 := st.(pos := st.pos + 2, events := st.events + PairDecls([ps[0]]));
      calc {
        NamespacePairs(toks, st);
        { PairTokensHead(toks, st.pos, ps, end);
          NamespacePairsFirst(toks, st, ps[0].0, ps[0].1); }
        NamespacePairs(toks, st1);
        { PairTokensHead(toks, st.pos, ps, end);
          NamespacePairsReportsEachPair(toks, st1, ps[1..], end); }
        Success(st1.(pos := end, events := st1.events + PairDecls(ps[1..])));
        { PairDeclsSplit(ps);
          assert st1.events + PairDecls(ps[1..]) == st.events + PairDecls(ps); }
        Success(st.(pos := end, events := st.events + PairDecls(ps)));
      }
    }
  }

  /** A badgerfish object of name/value pairs: one namespace declaration per
      pair, and the cursor after the object's end. */
  lemma BadgerfishReportsDeclarations(toks: seq<Token>, st: State, ps: seq<(string, Option<string>)>, end: nat)
    requires Valid(toks, st) && end == st.pos + 1 + 2 * |ps| <= |toks|
    requires Peek(toks, st.pos) == StartObject
    requires toks[st.pos + 1..end] == PairTokens(ps)
    requires Peek(toks, end) == EndObject
    ensures Badgerfish(toks, st) == Success(st.(pos := end + 1, events := st.events + PairDecls(ps)))
  {
    var st1 := st.(pos := end, events := st.events + PairDecls(ps));
    var s0 := Advance(st);
    assert s0.pos == st.pos + 1;
    assert Valid(toks, s0);
    assert toks[s0.pos..end] == PairTokens(ps);
    NamespacePairsReportsEachPair(toks, s0, ps, end);
    assert s0.(pos := end, events := s0.events + PairDecls(ps)) == st1;
    BadgerfishStep(toks, st, st1);
    assert Advance(st1) == st.(pos := end + 1, events := st.events + PairDecls(ps));
  }

  /** A badgerfish object whose body reads to `st1` and is followed by the
      object's end: the cursor moves past that end. */
  lemma BadgerfishStep(toks: seq<Token>, st: State, st1: State)
    requires Valid(toks, st) && Peek(toks, st.pos) == StartObject
    requires NamespacePairs(toks, Advance(st)) == Success(st1)
    requires Peek(toks, st1.pos) == EndObject
    ensures Badgerfish(toks, st) == Success(Advance(st1))
  {
  }

  /** `@xmlns` followed by an object of name/value pairs: one namespace
      declaration per pair, no element, and consume() goes on. */
  lemma XmlnsObjectReportsDeclarations(cfg: Config, toks: seq<Token>, st: State, ps: seq<(string, Option<string>)>, end: nat)
    requires Valid(toks, st) && end == st.pos + 2 + 2 * |ps| <= |toks|
    requires Peek(toks, st.pos) == Name("@xmlns") && Peek(toks, st.pos + 1) == StartObject
    requires toks[st.pos + 2..end] == PairTokens(ps)
    requires Peek(toks, end) == EndObject
    ensures ConsumeName(cfg, toks, st) ==
      Success(Continue(st.(pos := end + 1, events := st.events + PairDecls(ps))))
  {
    var st2 := st.(pos := end + 1, events := st.events + PairDecls(ps));
    assert Badgerfish(toks, Advance(st)) == Success(st2) by {
      BadgerfishReportsDeclarations(toks, Advance(st), ps, end);
    }
    XmlnsNameStep(cfg, toks, st);
  }

  /** `@xmlns` followed by an object: consume() reads the object as a group
      of namespace declarations and goes on unless that fails. */
  lemma XmlnsNameStep(cfg: Config, toks: seq<Token>, st: State)
    requires Valid(toks, st)
    requires Peek(toks, st.pos) == Name("@xmlns") && Peek(toks, st.pos + 1) == StartObject
    ensures var b := Badgerfish(toks, Advance(st));
      ConsumeName(cfg, toks, st) == if b.Success? then Success(Continue(b.value)) else Failure(b.error)
  {
    assert "@xmlns" == [AttributeSigil] + Xmlns;
    AttributeNameStep(cfg, toks, st, Xmlns);
  }

  /** An `@` name: what follows it decides everything, and consume() goes on
      unless that fails. */
  lemma AttributeNameStep(cfg: Config, toks: seq<Token>, st: State, attr: string)
    requires Valid(toks, st) && Peek(toks, st.pos) == Name([AttributeSigil] + attr)
    ensures var a := AttributeField(cfg, toks, Advance(st), attr);
      ConsumeName(cfg, toks, st) == if a.Success? then Success(Continue(a.value)) else Failure(a.error)
  {
    assert ([AttributeSigil] + attr)[1..] == attr;
  }

  /** An `@` name followed by a scalar value: exactly one attribute or
      namespace-declaration event, no element, and consume() goes on. */
  lemma AttributeNameWithValue(cfg: Config, toks: seq<Token>, st: State, attr: string)
    requires Valid(toks, st) && Peek(toks, st.pos) == Name([AttributeSigil] + attr)
    requires Peek(toks, st.pos + 1).Value?
    ensures var e := QNames.AttrNsDecl(attr, Peek(toks, st.pos + 1).value, cfg.separator);
      && (e.Attribute? || e.NamespaceDecl?)
      && ConsumeName(cfg, toks, st) == Success(Continue(st.(pos := st.pos + 2, events := st.events + [e])))
  {
    assert ([AttributeSigil] + attr)[1..] == attr;
  }

  /** An `@` name followed by anything but a scalar fails, except `@xmlns`
      followed by an object. */
  lemma AttributeNameWithoutValue(cfg: Config, toks: seq<Token>, st: State, attr: string)
    requires Valid(toks, st) && Peek(toks, st.pos) == Name([AttributeSigil] + attr)
    requires !Peek(toks, st.pos + 1).Value?
    ensures attr != Xmlns ==> ConsumeName(cfg, toks, st) == Failure(ExpectedAttributeValue)
    ensures attr == Xmlns && Peek(toks, st.pos + 1) != StartObject ==>
      ConsumeName(cfg, toks, st) == Failure(UnexpectedToken(Peek(toks, st.pos + 1)))
  {
    assert ([AttributeSigil] + attr)[1..] == attr;
  }

  /** The `$` name: its value as character data and nothing else; a `$`
      name without a scalar value fails. */
  lemma TextNameReportsCharacters(cfg: Config, toks: seq<Token>, st: State)
    requires Valid(toks, st) && Peek(toks, st.pos) == Name(TextField)
    ensures Peek(toks, st.pos + 1).Value? ==>
      ConsumeName(cfg, toks, st) ==
        Success(Continue(st.(pos := st.pos + 2, events := st.events + [Characters(Peek(toks, st.pos + 1).value)])))
    ensures !Peek(toks, st.pos + 1).Value? ==>
      ConsumeName(cfg, toks, st) == Failure(UnexpectedToken(Peek(toks, st.pos + 1)))
  {
  }

  /** Any other name becomes the current scope's tag name; nothing is
      reported and nothing else changes. */
  lemma PlainNameSetsTagName(cfg: Config, toks: seq<Token>, st: State, name: string)
    requires Valid(toks, st) && Peek(toks, st.pos) == Name(name)
    requires name != TextField && (|name| == 0 || name[0] != AttributeSigil)
    ensures ConsumeName(cfg, toks, st).Success?
    ensures var st1 := ConsumeName(cfg, toks, st).value.st;
      && st1.events == st.events
      && st1.pos == st.pos + 1
      && Current(st1) == Current(st).(currentTagName := Some(name))
      && st1.scopes[..|st1.scopes| - 1] == st.scopes[..|st.scopes| - 1]
      && st1.startDocumentRead == st.startDocumentRead
      && st1.documentArray == st.documentArray
  {
  }

  /** NAME, START_ARRAY and START_OBJECT never end a consume() call: it goes
      on with the next token, or fails. */
  lemma ContinuingTokens(cfg: Config, toks: seq<Token>, st: State)
    requires Valid(toks, st)
    requires Peek(toks, st.pos).Name? || Peek(toks, st.pos) == StartArray || Peek(toks, st.pos) == StartObject
    ensures Step(cfg, toks, st).Success? ==>
      && Step(cfg, toks, st).value.Continue?
      && Consume(cfg, toks, st) == Consume(cfg, toks, Step(cfg, toks, st).value.st)
    ensures Step(cfg, toks, st).Failure? ==> Consume(cfg, toks, st) == Failure(Step(cfg, toks, st).error)
  {
  }

  // ---------------------------------------------------------------------
  // START_ARRAY

  /** START_ARRAY fails inside an array; at the root before the document
      starts it marks a document array; elsewhere it needs a tag name and
      turns the scope into an array of that name with size 0. The
      processing instruction is reported exactly when multiplePI is set. */
  lemma StartArrayEffect(cfg: Config, toks: seq<Token>, st: State)
    requires Valid(toks, st) && Peek(toks, st.pos) == StartArray
    ensures var r := OnStartArray(cfg, toks, st); var info := Current(st);
      && (info.IsArray() ==> r == Failure(ArrayStartInsideArray))
      && (!info.IsArray() && AtRoot(st) && !st.startDocumentRead ==>
            r.Success? && r.value.st.documentArray && r.value.st.scopes == st.scopes)
      && (!info.IsArray() && !(AtRoot(st) && !st.startDocumentRead) && info.currentTagName.None? ==>
            r == Failure(ArrayNameMissing))
      && (!info.IsArray() && !(AtRoot(st) && !st.startDocumentRead) && info.currentTagName.Some? ==>
            && r.Success?
            && Current(r.value.st) == info.(arrayState := Some(ArrayState(info.currentTagName.value, 0)))
            && r.value.st.scopes[..|st.scopes| - 1] == st.scopes[..|st.scopes| - 1]
            && r.value.st.documentArray == st.documentArray)
      && (r.Success? ==>
            && r.value.Continue?
            && r.value.st.pos == st.pos + 1
            && |r.value.st.scopes| == |st.scopes|
            && r.value.st.startDocumentRead == st.startDocumentRead
            && r.value.st.events ==
                 st.events + if cfg.multiplePI then [ProcessingInstruction(MultiplePiTarget, info.currentTagName)] else [])
  {
    var info := Current(st);
    if !info.IsArray() && !(AtRoot(st) && !st.startDocumentRead) && info.currentTagName.Some? {
      var st2 := SetCurrent(Advance(st), info.(arrayState := Some(ArrayState(info.currentTagName.value, 0))));
      assert st2.scopes[..|st.scopes| - 1] == st.scopes[..|st.scopes| - 1];
    }
  }

  // ---------------------------------------------------------------------
  // START_OBJECT

  /** Counting an array element leaves the outer scopes and the tag name
      alone and adds one to the size of an array scope; any other scope is
      left as it is. */
  lemma CountArrayElementEffect(st: State)
    requires |st.scopes| >= 1
    ensures var r := CountArrayElement(st); var info := Current(st);
      && r.scopes[..|st.scopes| - 1] == st.scopes[..|st.scopes| - 1]
      && Current(r).currentTagName == info.currentTagName
      && (info.IsArray() ==>
            Current(r).arrayState == Some(ArrayState(info.arrayState.value.name, info.arrayState.value.size + 1)))
      && (!info.IsArray() ==> r == st)
  {
    var info := Current(st);
    if info.IsArray() {
      var r := SetCurrent(st, IncArraySize(info));
      assert r.scopes == st.scopes[..|st.scopes| - 1] + [IncArraySize(info)];
      assert r.scopes[..|st.scopes| - 1] == st.scopes[..|st.scopes| - 1];
    }
  }

  /** START_OBJECT at the root before the document starts reports only the
      start of the document; elsewhere it counts one more array item when
      the scope is an array, and starts an element (opening a scope) exactly
      when the scope has a tag name. */
  lemma StartObjectEffect(cfg: Config, toks: seq<Token>, st: State)
    requires Valid(toks, st) && Peek(toks, st.pos) == StartObject
    ensures var r := OnStartObject(cfg, toks, st); var info := Current(st);
      && r.Success? && r.value.Continue? && r.value.st.pos == st.pos + 1
      && r.value.st.documentArray == st.documentArray
      && (AtRoot(st) && !st.startDocumentRead ==>
            && r.value.st.events == st.events + [StartDocument]
            && r.value.st.startDocumentRead
            && r.value.st.scopes == st.scopes)
      && (!(AtRoot(st) && !st.startDocumentRead) ==>
            var parent := r.value.st.scopes[|st.scopes| - 1];
            && r.value.st.startDocumentRead == st.startDocumentRead
            && r.value.st.scopes[..|st.scopes| - 1] == st.scopes[..|st.scopes| - 1]
            && parent.currentTagName == info.currentTagName
            && (info.IsArray() ==>
                  parent.arrayState == Some(ArrayState(info.arrayState.value.name, info.arrayState.value.size + 1)))
            && (!info.IsArray() ==> parent.arrayState == None)
            && (info.currentTagName.Some? ==>
                  && r.value.st.events == st.events + [StartElement(
                       QNames.SplitName(info.currentTagName.value, cfg.separator).0,
                       QNames.SplitName(info.currentTagName.value, cfg.separator).1)]
                  && r.value.st.scopes == r.value.st.scopes[..|st.scopes|] + [FreshScope])
            && (info.currentTagName.None? ==>
                  r.value.st.events == st.events && |r.value.st.scopes| == |st.scopes|))
  {
    CountArrayElementEffect(Advance(st));
  }

  // ---------------------------------------------------------------------
  // VALUE

  /** The element name a scalar is reported under: the array's name in an
      array scope, otherwise the scope's tag name. */
  function ValueName(info: ScopeInfo): Option<string> {
    if info.IsArray() then Some(info.arrayState.value.name) else info.currentTagName
  }

  /** The report of a scalar: bare characters at the root before the
      document starts; otherwise, when its name is known, start-element,
      characters unless the value is null, end-element; otherwise a failure. */
  lemma ReportValueEvents(cfg: Config, st: State, name: Option<string>, text: Option<string>)
    requires |st.scopes| >= 1
    ensures var v := ReportValue(cfg, st, name, text);
      && (AtRoot(st) && !st.startDocumentRead ==> v == Success(st.(events := st.events + [Characters(text)])))
      && (!(AtRoot(st) && !st.startDocumentRead) && name.None? ==> v == Failure(MissingElementName))
      && (!(AtRoot(st) && !st.startDocumentRead) && name.Some? ==>
            v == Success(st.(events :=
                 st.events
                 + [StartElement(QNames.SplitName(name.value, cfg.separator).0,
                                 QNames.SplitName(name.value, cfg.separator).1)]
                 + (if text.Some? then [Characters(text)] else [])
                 + [EndElement])))
  {
    if !(AtRoot(st) && !st.startDocumentRead) && name.Some? {
      var st1 := StartElementTag(cfg, st, name.value);
      var st2 := if text.Some? then Emit(st1, Characters(text)) else st1;
      assert st2.scopes[..|st2.scopes| - 1] == st.scopes;
      var st3 := CloseElement(st2);
      assert st3.events == st1.events + (if text.Some? then [Characters(text)] else []) + [EndElement];
      assert st3 == st.(events := st3.events);
    }
  }

  /** VALUE reports from the state with its array element counted, and
      returns true. */
  lemma OnValueReports(cfg: Config, toks: seq<Token>, st: State)
    requires Valid(toks, st) && Peek(toks, st.pos).Value?
    ensures var v := ReportValue(cfg, CountArrayElement(Advance(st)), ValueName(Current(st)), Peek(toks, st.pos).value);
      OnValue(cfg, toks, st) == if v.Failure? then Failure(v.error) else Success(Return(v.value, true))
  {
  }

  /** VALUE always returns true with the cursor past the value, the outer
      scopes unchanged and, in an array scope, the array size one larger;
      any other scope is left as it was. */
  lemma ValueEffect(cfg: Config, toks: seq<Token>, st: State)
    requires Valid(toks, st) && Peek(toks, st.pos).Value?
    ensures var r := OnValue(cfg, toks, st); var info := Current(st);
      && (r.Success? ==> r.value.Return? && r.value.more && r.value.st.pos == st.pos + 1)
      && (r.Success? ==>
            r.value.st.startDocumentRead == st.startDocumentRead && r.value.st.documentArray == st.documentArray)
      && (r.Success? ==> |r.value.st.scopes| == |st.scopes|)
      && (r.Success? ==> r.value.st.scopes[..|st.scopes| - 1] == st.scopes[..|st.scopes| - 1])
      && (r.Success? && info.IsArray() ==>
            && Current(r.value.st).arrayState == Some(ArrayState(info.arrayState.value.name, info.arrayState.value.size + 1))
            && Current(r.value.st).currentTagName == info.currentTagName)
      && (r.Success? && !info.IsArray() ==> r.value.st.scopes == st.scopes)
  {
    var st2 := CountArrayElement(Advance(st));
    CountArrayElementEffect(Advance(st));
    OnValueReports(cfg, toks, st);
  }

  /** What VALUE reports: at the root before the document starts only its
      characters; elsewhere start-element, characters unless the value is
      null, end-element, under the array's name in an array scope and the
      tag name otherwise, failing when there is no name. */
  lemma ValueReports(cfg: Config, toks: seq<Token>, st: State)
    requires Valid(toks, st) && Peek(toks, st.pos).Value?
    ensures var r := OnValue(cfg, toks, st);
      var text := Peek(toks, st.pos).value; var name := ValueName(Current(st));
      && (AtRoot(st) && !st.startDocumentRead ==>
            r.Success? && r.value.st.events == st.events + [Characters(text)])
      && (!(AtRoot(st) && !st.startDocumentRead) && name.None? ==> r == Failure(MissingElementName))
      && (!(AtRoot(st) && !st.startDocumentRead) && name.Some? ==>
            && r.Success?
            && r.value.st.events ==
                 st.events
                 + [StartElement(QNames.SplitName(name.value, cfg.separator).0,
                                 QNames.SplitName(name.value, cfg.separator).1)]
                 + (if text.Some? then [Characters(text)] else [])
                 + [EndElement])
  {
    var st2 := CountArrayElement(Advance(st));
    OnValueReports(cfg, toks, st);
    ReportValueEvents(cfg, st2, ValueName(Current(st)), Peek(toks, st.pos).value);
  }

  // ---------------------------------------------------------------------
  // END_OBJECT, END_ARRAY, NONE

  /** END_OBJECT at the root after the document started reports its end and
      returns documentArray; anywhere else it ends the current element and
      returns true. */
  lemma EndObjectEffect(toks: seq<Token>, st: State)
    requires Valid(toks, st) && Peek(toks, st.pos) == EndObject
    ensures var r := OnEndObject(toks, st);
      && (AtRoot(st) && st.startDocumentRead ==>
            r == Success(Return(st.(pos := st.pos + 1, events := st.events + [EndDocument]), st.documentArray)))
      && (!AtRoot(st) ==>
            r == Success(Return(st.(pos := st.pos + 1, events := st.events + [EndElement],
                                    scopes := st.scopes[..|st.scopes| - 1]), true)))
      && (AtRoot(st) && !st.startDocumentRead ==> r == Failure(EndElementAtRoot))
  {
  }

  /** END_ARRAY at the root of a document array ends the stream; otherwise
      it fails outside an array and else leaves the array, keeping the scope. */
  lemma EndArrayEffect(toks: seq<Token>, st: State)
    requires Valid(toks, st) && Peek(toks, st.pos) == EndArray
    ensures var r := OnEndArray(toks, st); var info := Current(st);
      && (AtRoot(st) && st.documentArray ==> r == Success(Return(st.(pos := st.pos + 1), false)))
      && (!(AtRoot(st) && st.documentArray) && !info.IsArray() ==> r == Failure(ArrayEndWithoutStart))
      && (!(AtRoot(st) && st.documentArray) && info.IsArray() ==>
            && r.Success? && r.value.Return? && r.value.more
            && r.value.st.pos == st.pos + 1
            && r.value.st.events == st.events
            && r.value.st.startDocumentRead == st.startDocumentRead
            && r.value.st.documentArray == st.documentArray
            && |r.value.st.scopes| == |st.scopes|
            && r.value.st.scopes[..|st.scopes| - 1] == st.scopes[..|st.scopes| - 1]
            && Current(r.value.st) == info.(arrayState := None))
  {
    var info := Current(st);
    if !(AtRoot(st) && st.documentArray) && info.IsArray() {
      var st2 := SetCurrent(Advance(st), info.(arrayState := None));
      assert st2.scopes[..|st.scopes| - 1] == st.scopes[..|st.scopes| - 1];
    }
  }

  /** NONE ends the stream without touching anything. */
  lemma NoTokenEndsStream(cfg: Config, toks: seq<Token>, st: State)
    requires Valid(toks, st) && Peek(toks, st.pos) == NoToken
    ensures Consume(cfg, toks, st) == Success(Consumed(st, false))
  {
  }

  /** A nested array directly inside an array fails, at any depth. */
  lemma ArrayInsideArrayFails(cfg: Config, toks: seq<Token>, st: State)
    requires Valid(toks, st) && Peek(toks, st.pos) == StartArray && Current(st).IsArray()
    ensures Consume(cfg, toks, st) == Failure(ArrayStartInsideArray)
  {
  }

  // ---------------------------------------------------------------------
  // Whole documents

  /** The tokens of `{"alice":"bob"}`. */
  const AliceTokens: seq<Token> := [StartObject, Name("alice"), Value(Some("bob")), EndObject]

  /** The events of `<alice>bob</alice>` after the document start. */
  const AliceEvents: seq<Event> :=
    [StartDocument, StartElement(DefaultNsPrefix, "alice"), Characters(Some("bob")), EndElement]

  /** The reader state after the value of `{"alice":"bob"}`. */
  const AliceRead: State := State(3, [ScopeInfo(Some("alice"), None)], true, false, AliceEvents)

  /** The value of `{"alice":"bob"}`, read with `alice` as the tag name,
      becomes one element with its text and returns true. */
  lemma AliceValueStep(cfg: Config)
    requires cfg.separator !in "alice"
    ensures Step(cfg, AliceTokens, State(2, [ScopeInfo(Some("alice"), None)], true, false, [StartDocument])) ==
      Success(Return(AliceRead, true))
  {
    var s2 := State(2, [ScopeInfo(Some("alice"), None)], true, false, [StartDocument]);
    ValueEffect(cfg, AliceTokens, s2);
    ValueReports(cfg, AliceTokens, s2);
    assert Peek(AliceTokens, 2) == Value(Some("bob"));
    assert ValueName(Current(s2)) == Some("alice");
    assert QNames.SplitName("alice", cfg.separator) == (DefaultNsPrefix, "alice");
    var r := OnValue(cfg, AliceTokens, s2);
    assert r.Success? && r.value.st.events == AliceEvents && r.value.st.scopes == s2.scopes;
    assert r.value.st == AliceRead;
    assert Step(cfg, AliceTokens, s2) == r;
  }

  /** `{"alice":"bob"}` with no separator in the name: the first consume()
      call reports the document start and the element with its text and
      returns true. */
  lemma FlatObjectFirstCall(cfg: Config)
    requires cfg.separator !in "alice"
    ensures Consume(cfg, AliceTokens, Initial()) == Success(Consumed(AliceRead, true))
  {
    var s0 := Initial();
    var s1 := State(1, [FreshScope], true, false, [StartDocument]);
    assert Step(cfg, AliceTokens, s0) == Success(Continue(s1));
    var s2 := State(2, [ScopeInfo(Some("alice"), None)], true, false, [StartDocument]);
    assert Step(cfg, AliceTokens, s1) == Success(Continue(s2)) by {
      assert "alice"[0] != AttributeSigil && "alice" != TextField;
      PlainNameSetsTagName(cfg, AliceTokens, s1, "alice");
    }
    AliceValueStep(cfg);
  }

  /** The second consume() call on `{"alice":"bob"}` reports the document
      end and returns false: the document is not a bare array. */
  lemma FlatObjectSecondCall(cfg: Config)
    ensures Consume(cfg, AliceTokens, AliceRead) ==
      Success(Consumed(AliceRead.(pos := 4, events := AliceEvents + [EndDocument]), false))
  {
    assert Step(cfg, AliceTokens, AliceRead) ==
      Success(Return(AliceRead.(pos := 4, events := AliceEvents + [EndDocument]), false));
  }

  /** A bare scalar as the whole input: its characters, then the end. */
  lemma RootScalarDocument(cfg: Config, text: Option<string>)
    ensures var toks := [Value(text)];
      var c1 := Consume(cfg, toks, Initial());
      && c1 == Success(Consumed(State(1, [FreshScope], false, false, [Characters(text)]), true))
      && Consume(cfg, toks, c1.value.st) == Success(Consumed(c1.value.st, false))
  {
    var toks := [Value(text)];
    var s1 := State(1, [FreshScope], false, false, [Characters(text)]);
    assert Step(cfg, toks, Initial()) == Success(Return(s1, true));
  }
}
