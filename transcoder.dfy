/** The meaning of one consume() call of the JSON XML stream reader, as
    functions of the token sequence and the reader state. The class in
    stream_reader.dfy implements these by mutation and is proved against
    them; the lemmas in transcoder_props.dfy state what each token does. */
module Transcoder {
  import opened Wrappers
  import opened JsonXml
  import QNames

  /** The reader's configuration, fixed at construction: whether array
      starts are signalled by a processing instruction, and the namespace
      separator of qualified field names. */
  datatype Config = Config(multiplePI: bool, separator: char)

  /** Everything consume() reads or writes: the cursor into the token
      sequence, the scope stack (the root first, the current scope last),
      the start-document flag of the framework, the documentArray flag, and
      the events reported so far. */
  datatype State = State(
    pos: nat,
    scopes: seq<ScopeInfo>,
    startDocumentRead: bool,
    documentArray: bool,
    events: seq<Event>)

  /** What one token leaves for the caller: keep consuming, or return to the
      framework with consume()'s boolean result. */
  datatype Next = Continue(st: State) | Return(st: State, more: bool)

  /** The result of a whole consume() call. */
  datatype Consumed = Consumed(st: State, more: bool)

  /** The cursor is inside the token sequence and the root scope is present. */
  predicate Valid(toks: seq<Token>, st: State) {
    st.pos <= |toks| && |st.scopes| >= 1
  }

  /** The state of a newly constructed reader: only the root scope. */
  function Initial(): (st: State)
    ensures forall toks :: Valid(toks, st)
  {
    State(0, [FreshScope], false, false, [])
  }

  // ---------------------------------------------------------------------
  // Element nesting: the number of start-element events minus the number
  // of end-element events.

  function Delta(e: Event): int {
    if e.StartElement? then 1 else if e.EndElement? then -1 else 0
  }

  function Depth(es: seq<Event>): int {
    if es == [] then 0 else Depth(es[..|es| - 1]) + Delta(es[|es| - 1])
  }

  /** How a step may change the state: the cursor only moves forward, events
      are only appended, the scope stack grows and shrinks exactly as the
      appended events open and close elements, and the two flags are never
      reset. */
  predicate Extends(st0: State, st1: State) {
    && st0.pos <= st1.pos
    && st0.events <= st1.events
    && |st1.scopes| - |st0.scopes| == Depth(st1.events) - Depth(st0.events)
    && (st0.startDocumentRead ==> st1.startDocumentRead)
    && (st0.documentArray ==> st1.documentArray)
  }

  /** What every successful token step guarantees: a valid state that
      extends the old one, and a cursor that has moved unless consume()
      signals the end of the stream. */
  predicate StepOk(toks: seq<Token>, st: State, r: Result<Next, Error>) {
    r.Success? ==>
      && Valid(toks, r.value.st)
      && Extends(st, r.value.st)
      && (r.value.Continue? || r.value.more ==> st.pos < r.value.st.pos)
  }

  // ---------------------------------------------------------------------
  // The token source: peek at the current token, advance past it.

  function Peek(toks: seq<Token>, pos: nat): (t: Token)
    ensures t != NoToken ==> pos < |toks| && t == toks[pos]
  {
    if pos < |toks| then toks[pos] else NoToken
  }

  function Advance(st: State): State {
    st.(pos := st.pos + 1)
  }

  // ---------------------------------------------------------------------
  // The framework calls the reader reports into.

  function Current(st: State): ScopeInfo
    requires |st.scopes| >= 1
  {
    st.scopes[|st.scopes| - 1]
  }

  predicate AtRoot(st: State) {
    |st.scopes| == 1
  }

  function SetCurrent(st: State, info: ScopeInfo): (r: State)
    requires |st.scopes| >= 1
    ensures |r.scopes| == |st.scopes| && Current(r) == info
  {
    st.(scopes := st.scopes[..|st.scopes| - 1] + [info])
  }

  function Emit(st: State, e: Event): (r: State)
    ensures r == st.(events := r.events)
    ensures r.events == st.events + [e]
    ensures Depth(r.events) == Depth(st.events) + Delta(e)
  {
    assert (st.events + [e])[..|st.events|] == st.events;
    st.(events := st.events + [e])
  }

  /** readStartElementTag(String) followed by the framework's
      readStartElementTag: report the split name and open a fresh scope. */
  function StartElementTag(cfg: Config, st: State, name: string): (r: State)
    ensures r.scopes == st.scopes + [FreshScope]
    ensures r.events == st.events + [StartElement(QNames.SplitName(name, cfg.separator).0,
                                                  QNames.SplitName(name, cfg.separator).1)]
    ensures Depth(r.events) == Depth(st.events) + 1
  {
    var (prefix, local) := QNames.SplitName(name, cfg.separator);
    Emit(st, StartElement(prefix, local)).(scopes := st.scopes + [FreshScope])
  }

  /** readEndElementTag below the root: report the end and close the scope. */
  function CloseElement(st: State): (r: State)
    requires |st.scopes| >= 2
    ensures r.scopes == st.scopes[..|st.scopes| - 1]
    ensures r.events == st.events + [EndElement]
    ensures Depth(r.events) == Depth(st.events) - 1
  {
    Emit(st, EndElement).(scopes := st.scopes[..|st.scopes| - 1])
  }

  /** readEndElementTag: the root scope cannot be closed. */
  function EndElementTag(st: State): (r: Result<State, Error>)
    requires |st.scopes| >= 1
    ensures r.Failure? <==> AtRoot(st)
    ensures r.Success? ==> r.value == CloseElement(st)
  {
    if AtRoot(st) then Failure(EndElementAtRoot) else Success(CloseElement(st))
  }

  function IncArraySize(info: ScopeInfo): (r: ScopeInfo)
    requires info.IsArray()
    ensures r.currentTagName == info.currentTagName
    ensures r.arrayState == Some(ArrayState(info.arrayState.value.name, info.arrayState.value.size + 1))
  {
    var a := info.arrayState.value;
    info.(arrayState := Some(a.(size := a.size + 1)))
  }

  /** START_OBJECT and VALUE in an array scope: one more array element. */
  function CountArrayElement(st: State): (r: State)
    requires |st.scopes| >= 1
    ensures r == st.(scopes := r.scopes) && |r.scopes| == |st.scopes|
  {
    var info := Current(st);
    if info.IsArray() then SetCurrent(st, IncArraySize(info)) else st
  }

  // ---------------------------------------------------------------------
  // consumeName: a NAME token.

  /** `st1` differs from `st0` only by a cursor moved forward and appended
      events that open and close no element. */
  predicate Flat(st0: State, st1: State) {
    && st1 == st0.(pos := st1.pos, events := st1.events)
    && st0.pos <= st1.pos
    && st0.events <= st1.events
    && Depth(st1.events) == Depth(st0.events)
  }

  /** The badgerfish `@xmlns` object's body: one namespace declaration per
      name/value pair, `$` standing for the default prefix; stops at the
      first token that is not a name. */
  function NamespacePairs(toks: seq<Token>, st: State): (r: Result<State, Error>)
    requires Valid(toks, st)
    ensures r.Success? ==> Valid(toks, r.value) && Flat(st, r.value) && !Peek(toks, r.value.pos).Name?
    decreases |toks| - st.pos
  {
    if !Peek(toks, st.pos).Name? then Success(st)
    else
      var st1 :- NamespacePair(toks, st);
      NamespacePairs(toks, st1)
  }

  /** One name/value pair of the badgerfish object: a namespace declaration
      of the name as prefix, `$` standing for the default prefix. */
  function NamespacePair(toks: seq<Token>, st: State): (r: Result<State, Error>)
    requires Valid(toks, st) && Peek(toks, st.pos).Name?
    ensures r.Success? ==> Valid(toks, r.value) && Flat(st, r.value) && r.value.pos == st.pos + 2
  {
    var prefix := Peek(toks, st.pos).name;
    var t := Peek(toks, st.pos + 1);
    if !t.Value? then Failure(UnexpectedToken(t))
    else Success(Emit(st.(pos := st.pos + 2), NamespaceDecl(if prefix == TextField then DefaultNsPrefix else prefix, t.value)))
  }

  /** `@xmlns` followed by an object: the object's pairs as namespace
      declarations, then the object's end. */
  function Badgerfish(toks: seq<Token>, st: State): (r: Result<State, Error>)
    requires Valid(toks, st)
    ensures r.Success? ==> Valid(toks, r.value) && Flat(st, r.value) && st.pos < r.value.pos
  {
    if Peek(toks, st.pos) != StartObject then Failure(UnexpectedToken(Peek(toks, st.pos)))
    else
      var st1 :- NamespacePairs(toks, Advance(st));
      if Peek(toks, st1.pos) != EndObject then Failure(UnexpectedToken(Peek(toks, st1.pos)))
      else Success(Advance(st1))
  }

  /** An `@` field, its sigil already removed, at the token after its name:
      a scalar value makes one attribute or namespace declaration, an object
      after `@xmlns` a group of namespace declarations; anything else fails. */
  function AttributeField(cfg: Config, toks: seq<Token>, st: State, attr: string): (r: Result<State, Error>)
    requires Valid(toks, st)
    ensures r.Success? ==> Valid(toks, r.value) && Flat(st, r.value) && st.pos < r.value.pos
  {
    var t := Peek(toks, st.pos);
    if t.Value? then Success(Emit(Advance(st), QNames.AttrNsDecl(attr, t.value, cfg.separator)))
    else if attr == Xmlns then Badgerfish(toks, st)
    else Failure(ExpectedAttributeValue)
  }

  /** The `$` field at the token after its name: its value as character data. */
  function TextFieldValue(toks: seq<Token>, st: State): (r: Result<State, Error>)
    requires Valid(toks, st)
    ensures r.Success? ==> Valid(toks, r.value) && Flat(st, r.value) && st.pos < r.value.pos
  {
    var t := Peek(toks, st.pos);
    if t.Value? then Success(Emit(Advance(st), Characters(t.value)))
    else Failure(UnexpectedToken(t))
  }

  /** consumeName: an attribute or namespace declaration for an `@` name, a
      character event for `$`, otherwise the scope's new tag name. */
  function ConsumeName(cfg: Config, toks: seq<Token>, st: State): (r: Result<Next, Error>)
    requires Valid(toks, st) && Peek(toks, st.pos).Name?
    ensures StepOk(toks, st, r)
    ensures r.Success? ==> r.value.Continue? && |r.value.st.scopes| == |st.scopes|
  {
    var fieldName := Peek(toks, st.pos).name;
    var st1 := Advance(st);
    if |fieldName| > 0 && fieldName[0] == AttributeSigil then
      var st2 :- AttributeField(cfg, toks, st1, fieldName[1..]);
      Success(Continue(st2))
    else if fieldName == TextField then
      var st2 :- TextFieldValue(toks, st1);
      Success(Continue(st2))
    else
      var info := Current(st1);
      Success(Continue(SetCurrent(st1, info.(currentTagName := Some(fieldName)))))
  }

  // ---------------------------------------------------------------------
  // The other branches of consume()'s switch.

  function OnStartArray(cfg: Config, toks: seq<Token>, st: State): (r: Result<Next, Error>)
    requires Valid(toks, st) && Peek(toks, st.pos) == StartArray
    ensures StepOk(toks, st, r)
    ensures r.Success? ==> r.value.Continue? && |r.value.st.scopes| == |st.scopes|
  {
    var info := Current(st);
    var st1 := Advance(st);
    if info.IsArray() then Failure(ArrayStartInsideArray)
    else
      var st2 :-
        if AtRoot(st1) && !st1.startDocumentRead then Success(st1.(documentArray := true))
        else if info.currentTagName.None? then Failure(ArrayNameMissing)
        else Success(SetCurrent(st1, info.(arrayState := Some(ArrayState(info.currentTagName.value, 0)))));
      var st3 := if cfg.multiplePI then Emit(st2, ProcessingInstruction(MultiplePiTarget, info.currentTagName)) else st2;
      Success(Continue(st3))
  }

  function OnStartObject(cfg: Config, toks: seq<Token>, st: State): (r: Result<Next, Error>)
    requires Valid(toks, st) && Peek(toks, st.pos) == StartObject
    ensures StepOk(toks, st, r)
    ensures r.Success? && r.value.Continue?
  {
    var info := Current(st);
    var st1 := Advance(st);
    if AtRoot(st1) && !st1.startDocumentRead then
      Success(Continue(Emit(st1, StartDocument).(startDocumentRead := true)))
    else
      var st2 := CountArrayElement(st1);
      var st3 := if info.currentTagName.Some? then StartElementTag(cfg, st2, info.currentTagName.value) else st2;
      Success(Continue(st3))
  }

  function OnEndObject(toks: seq<Token>, st: State): (r: Result<Next, Error>)
    requires Valid(toks, st) && Peek(toks, st.pos) == EndObject
    ensures StepOk(toks, st, r)
    ensures r.Success? ==> r.value.Return?
  {
    var st1 := Advance(st);
    if AtRoot(st1) && st1.startDocumentRead then
      Success(Return(Emit(st1, EndDocument), st1.documentArray))
    else
      var st2 :- EndElementTag(st1);
      Success(Return(st2, true))
  }

  /** A scalar field as one self-contained element: its start, its text
      unless the value is null, its end. */
  function ValueElement(cfg: Config, st: State, name: string, text: Option<string>): (r: State)
    requires |st.scopes| >= 1
    ensures r == st.(events := r.events)
    ensures st.events <= r.events && Depth(r.events) == Depth(st.events)
  {
    var st1 := StartElementTag(cfg, st, name);
    var st2 := if text.Some? then Emit(st1, Characters(text)) else st1;
    CloseElement(st2)
  }

  function OnValue(cfg: Config, toks: seq<Token>, st: State): (r: Result<Next, Error>)
    requires Valid(toks, st) && Peek(toks, st.pos).Value?
    ensures StepOk(toks, st, r)
    ensures r.Success? ==> r.value.Return? && r.value.more && |r.value.st.scopes| == |st.scopes|
  {
    var text := Peek(toks, st.pos).value;
    var info := Current(st);
    var st1 := Advance(st);
    var name := if info.IsArray() then Some(info.arrayState.value.name) else info.currentTagName;
    var st2 := CountArrayElement(st1);
    var st3 :- ReportValue(cfg, st2, name, text);
    Success(Return(st3, true))
  }

  /** The rest of VALUE once the array size is counted: bare characters at
      the document root before the document starts, otherwise one element
      named `name`, which must be known. Only the events change. */
  function ReportValue(cfg: Config, st: State, name: Option<string>, text: Option<string>): (r: Result<State, Error>)
    requires |st.scopes| >= 1
    ensures r.Failure? <==> !(AtRoot(st) && !st.startDocumentRead) && name.None?
    ensures r.Success? ==> r.value == st.(events := r.value.events)
    ensures r.Success? ==> st.events <= r.value.events && Depth(r.value.events) == Depth(st.events)
  {
    if AtRoot(st) && !st.startDocumentRead then Success(Emit(st, Characters(text)))
    else if name.None? then Failure(MissingElementName)
    else Success(ValueElement(cfg, st, name.value, text))
  }

  function OnEndArray(toks: seq<Token>, st: State): (r: Result<Next, Error>)
    requires Valid(toks, st) && Peek(toks, st.pos) == EndArray
    ensures StepOk(toks, st, r)
    ensures r.Success? ==> r.value.Return? && |r.value.st.scopes| == |st.scopes|
  {
    var info := Current(st);
    var st1 := Advance(st);
    if AtRoot(st1) && st1.documentArray then Success(Return(st1, false))
    else if !info.IsArray() then Failure(ArrayEndWithoutStart)
    else Success(Return(SetCurrent(st1, info.(arrayState := None)), true))
  }

  // ---------------------------------------------------------------------
  // consume()

  /** One token of consume()'s switch. */
  function Step(cfg: Config, toks: seq<Token>, st: State): (r: Result<Next, Error>)
    requires Valid(toks, st)
    ensures StepOk(toks, st, r)
  {
    match Peek(toks, st.pos)
    case Name(_) => ConsumeName(cfg, toks, st)
    case StartArray => OnStartArray(cfg, toks, st)
    case StartObject => OnStartObject(cfg, toks, st)
    case EndObject => OnEndObject(toks, st)
    case Value(_) => OnValue(cfg, toks, st)
    case EndArray => OnEndArray(toks, st)
    case NoToken => Success(Return(st, false))
  }

  /** consume(): take tokens until one of them returns to the framework. */
  function Consume(cfg: Config, toks: seq<Token>, st: State): (r: Result<Consumed, Error>)
    requires Valid(toks, st)
    ensures r.Success? ==> Valid(toks, r.value.st) && Extends(st, r.value.st)
    ensures r.Success? && r.value.more ==> st.pos < r.value.st.pos
    decreases |toks| - st.pos
  {
    var next :- Step(cfg, toks, st);
    match next
    case Continue(st1) => Consume(cfg, toks, st1)
    case Return(st1, more) => Success(Consumed(st1, more))
  }
}
