/** format.rs: writing JSON as XML events, and the stack machine that reads events back. */
module Format {
  import opened Json
  import opened Pointer
  import opened XmlText
  import opened OrderedJson

  /** Letters and digits outside ASCII, as the Unicode tables of the standard library have them. */
  datatype Letters = Letters(alphabetic: char -> bool, alphanumeric: char -> bool)

  datatype XmlError =
    | RootNotObject
    | RootCount(count: nat)
    | InvalidName(name: string)
    | InvalidCharacter
    | NonScalarText
    | TextOutsideRoot
    | UnknownEntity
    | UnmatchedEnd
    | DoctypeForbidden
    | UnclosedElements
    | MissingRoot
    | MultipleRoots

  datatype Attribute = Attribute(name: string, value: string)

  /** What the writer emits and the reader delivers. A reference carries the text it resolves to, if any;
      comments, declarations and processing instructions are Other. */
  datatype Event =
    | Start(name: string, attributes: seq<Attribute>)
    | Empty(name: string, attributes: seq<Attribute>)
    | End(name: string)
    | Text(text: string)
    | CData(text: string)
    | Reference(resolved: Option<string>)
    | DocType
    | Other

  // ---------- validators ----------

  predicate Alphabetic(c: char, letters: Letters) {
    if c < '\U{0080}' then 'a' <= c <= 'z' || 'A' <= c <= 'Z' else letters.alphabetic(c)
  }

  predicate Alphanumeric(c: char, letters: Letters) {
    if c < '\U{0080}' then 'a' <= c <= 'z' || 'A' <= c <= 'Z' || '0' <= c <= '9' else letters.alphanumeric(c)
  }

  predicate ValidNamePart(part: string, letters: Letters) {
    part != "" && (part[0] == '_' || Alphabetic(part[0], letters))
    && forall i :: 1 <= i < |part| ==> part[i] == '_' || part[i] == '-' || part[i] == '.' || Alphanumeric(part[i], letters)
  }

  /** The parts of a name between colons. */
  function SplitColon(s: string): (parts: seq<string>)
    ensures |parts| >= 1
  {
    if s == "" then [""]
    else
      var rest := SplitColon(s[1..]);
      if s[0] == ':' then [""] + rest else [[s[0]] + rest[0]] + rest[1..]
  }

  predicate ValidName(name: string, letters: Letters) {
    var parts := SplitColon(name);
    |parts| <= 2 && forall i :: 0 <= i < |parts| ==> ValidNamePart(parts[i], letters)
  }

  predicate ValidChar(c: char) {
    c == '\t' || c == '\n' || c == '\r' || '\U{0020}' <= c <= '\U{D7FF}' || '\U{E000}' <= c <= '\U{FFFD}'
    || '\U{10000}' <= c
  }

  predicate ValidText(s: string) {
    forall i :: 0 <= i < |s| ==> ValidChar(s[i])
  }

  predicate IsAttributeKey(key: string) {
    key != "" && key[0] == '@'
  }

  predicate IsChildKey(key: string) {
    !IsAttributeKey(key) && key != "#text"
  }

  function ScalarText(v: Value): Result<string, XmlError> {
    match v
    case Null => Ok("")
    case Bool(flag) => Ok(BoolText(flag))
    case Num(text) => Ok(text)
    case Str(text) => Ok(text)
    case _ => Err(NonScalarText)
  }

  function NodeText(n: Node): Result<string, XmlError> {
    match n
    case Scalar(v) => ScalarText(v)
    case _ => Err(NonScalarText)
  }

  // ---------- writing ----------

  /** The attributes of an element, in member order. */
  function Attributes(ms: seq<Member>, letters: Letters): Result<seq<Attribute>, XmlError> {
    if ms == [] then Ok([])
    else if !IsAttributeKey(ms[0].name) then Attributes(ms[1..], letters)
    else
      var name := ms[0].name[1..];
      if !ValidName(name, letters) then Err(InvalidName(name))
      else match NodeText(ms[0].node)
        case Err(e) => Err(e)
        case Ok(text) =>
          if !ValidText(text) then Err(InvalidCharacter)
          else match Attributes(ms[1..], letters)
            case Err(e) => Err(e)
            case Ok(rest) => Ok([Attribute(name, text)] + rest)
  }

  predicate HasOnlyAttributes(ms: seq<Member>) {
    forall i :: 0 <= i < |ms| ==> IsAttributeKey(ms[i].name)
  }

  /** The text of an object: its "#text" member, if it has one. */
  function ObjectText(ms: seq<Member>): Result<Option<string>, XmlError> {
    if ms == [] then Ok(None)
    else if ms[0].name == "#text" then
      match NodeText(ms[0].node)
      case Err(e) => Err(e)
      case Ok(text) => if ValidText(text) then Ok(Some(text)) else Err(InvalidCharacter)
    else ObjectText(ms[1..])
  }

  function Append(left: Result<seq<Event>, XmlError>, right: Result<seq<Event>, XmlError>): Result<seq<Event>, XmlError> {
    match left
    case Err(e) => Err(e)
    case Ok(a) =>
      match right
      case Err(e) => Err(e)
      case Ok(b) => Ok(a + b)
  }

  function Written(name: string, n: Node, letters: Letters): Result<seq<Event>, XmlError>
    decreases n, 1
  {
    if !ValidName(name, letters) then Err(InvalidName(name))
    else match n
      case Items(items) => WrittenItems(name, items, letters)
      case Scalar(v) =>
        if v.Null? then Ok([Empty(name, [])])
        else (
          match ScalarText(v)
          case Err(e) => Err(e)
          case Ok(text) =>
            if ValidText(text) then Ok([Start(name, []), Text(text), End(name)]) else Err(InvalidCharacter))
      case Members(ms) => (
        match Attributes(ms, letters)
        case Err(e) => Err(e)
        case Ok(attributes) =>
          if HasOnlyAttributes(ms) then Ok([Empty(name, attributes)])
          else Append(Append(Ok([Start(name, attributes)]), WrittenMembers(ms, letters)),
                      Append(WrittenText(ms), Ok([End(name)]))))
  }

  function WrittenText(ms: seq<Member>): Result<seq<Event>, XmlError> {
    match ObjectText(ms)
    case Err(e) => Err(e)
    case Ok(None) => Ok([])
    case Ok(Some(text)) => Ok([Text(text)])
  }

  function WrittenItems(name: string, items: seq<Node>, letters: Letters): Result<seq<Event>, XmlError>
    decreases items, 2
  {
    if items == [] then Ok([])
    else Append(Written(name, items[0], letters), WrittenItems(name, items[1..], letters))
  }

  function WrittenMembers(ms: seq<Member>, letters: Letters): Result<seq<Event>, XmlError>
    decreases ms, 2
  {
    if ms == [] then Ok([])
    else if !IsChildKey(ms[0].name) then WrittenMembers(ms[1..], letters)
    else Append(Written(ms[0].name, ms[0].node, letters), WrittenMembers(ms[1..], letters))
  }

  /** The writer: events are appended as they are produced. */
  class XmlWriter {
    var events: seq<Event>

    constructor ()
      ensures events == []
    {
      events := [];
    }

    /** Writes one member value under its name. */
    method WriteElement(name: string, n: Node, letters: Letters) returns (r: Result<(), XmlError>)
      modifies this
      ensures match Written(name, n, letters)
        case Ok(written) => r == Ok(()) && events == old(events) + written
        case Err(e) => r == Err(e)
      decreases n, 1
    {
      if !ValidName(name, letters) {
        return Err(InvalidName(name));
      }
      match n
      case Items(items) => r := WriteItems(name, items, letters);
      case Scalar(v) =>
        if v.Null? {
          events := events + [Empty(name, [])];
          return Ok(());
        }
        match ScalarText(v) {
          case Err(e) => return Err(e);
          case Ok(text) =>
            if !ValidText(text) {
              return Err(InvalidCharacter);
            }
            events := events + [Start(name, []), Text(text), End(name)];
            return Ok(());
        }
      case Members(ms) =>
        var attributes := Attributes(ms, letters);
        if attributes.Err? {
          return Err(attributes.error);
        }
        if HasOnlyAttributes(ms) {
          events := events + [Empty(name, attributes.value)];
          return Ok(());
        }
        ghost var before := events;
        events := events + [Start(name, attributes.value)];
        r := WriteMembers(ms, letters);
        if r.Err? {
          return;
        }
        ghost var children := WrittenMembers(ms, letters).value;
        assert events == before + ([Start(name, attributes.value)] + children);
        match ObjectText(ms) {
          case Err(e) => return Err(e);
          case Ok(None) =>
          case Ok(Some(text)) => events := events + [Text(text)];
        }
        events := events + [End(name)];
        assert events == before + (([Start(name, attributes.value)] + children) + (WrittenText(ms).value + [End(name)]));
    }

    method WriteItems(name: string, items: seq<Node>, letters: Letters) returns (r: Result<(), XmlError>)
      modifies this
      ensures match WrittenItems(name, items, letters)
        case Ok(written) => r == Ok(()) && events == old(events) + written
        case Err(e) => r == Err(e)
      decreases items, 2
    {
      if items == [] {
        return Ok(());
      }
      r := WriteElement(name, items[0], letters);
      if r.Ok? {
        r := WriteItems(name, items[1..], letters);
      }
    }

    method WriteMembers(ms: seq<Member>, letters: Letters) returns (r: Result<(), XmlError>)
      modifies this
      ensures match WrittenMembers(ms, letters)
        case Ok(written) => r == Ok(()) && events == old(events) + written
        case Err(e) => r == Err(e)
      decreases ms, 2
    {
      if ms == [] {
        return Ok(());
      }
      if IsChildKey(ms[0].name) {
        r := WriteElement(ms[0].name, ms[0].node, letters);
        if r.Err? {
          return;
        }
      }
      r := WriteMembers(ms[1..], letters);
    }
  }

  // ---------- reading ----------

  datatype Child = Child(name: string, value: Value)

  datatype Frame = Frame(name: string, attributes: map<string, Value>, children: seq<Child>, text: string)

  function AddChild(o: map<string, Value>, child: Child): map<string, Value> {
    if child.name !in o then o[child.name := child.value]
    else match o[child.name]
      case Arr(values) => o[child.name := Arr(values + [child.value])]
      case previous => o[child.name := Arr([previous, child.value])]
  }

  function AddChildren(o: map<string, Value>, children: seq<Child>): map<string, Value> {
    if children == [] then o else AddChild(AddChildren(o, children[..|children| - 1]), children[|children| - 1])
  }

  function Finish(frame: Frame): Child {
    var text := Trim(frame.text);
    if frame.attributes == map[] && frame.children == [] then
      Child(frame.name, if text == "" then Null else Str(text))
    else
      var o := AddChildren(frame.attributes, frame.children);
      Child(frame.name, Obj(if text == "" then o else o["#text" := Str(text)]))
  }

  /** The attributes of a start tag as it is read. */
  function AttributeMap(attributes: seq<Attribute>): map<string, Value> {
    if attributes == [] then map[]
    else
      var last := attributes[|attributes| - 1];
      AttributeMap(attributes[..|attributes| - 1])["@" + last.name := Str(AttributeText(last.value))]
  }

  predicate ValidAttributes(attributes: seq<Attribute>, letters: Letters) {
    forall i :: 0 <= i < |attributes| ==> ValidName(attributes[i].name, letters) && ValidText(AttributeText(attributes[i].value))
  }

  /** The first attribute with a name or a character that XML does not allow. */
  function AttributeFault(attributes: seq<Attribute>, letters: Letters): (e: Option<XmlError>)
    ensures e.None? <==> ValidAttributes(attributes, letters)
  {
    if attributes == [] then None
    else if !ValidName(attributes[0].name, letters) then Some(InvalidName(attributes[0].name))
    else if !ValidText(AttributeText(attributes[0].value)) then Some(InvalidCharacter)
    else AttributeFault(attributes[1..], letters)
  }

  function Open(name: string, attributes: seq<Attribute>, letters: Letters): Result<Frame, XmlError> {
    if !ValidName(name, letters) then Err(InvalidName(name))
    else
      match AttributeFault(attributes, letters)
      case Some(e) => Err(e)
      case None => Ok(Frame(name, AttributeMap(attributes), [], ""))
  }

  /** The open elements, innermost last, and the finished root. */
  datatype State = State(stack: seq<Frame>, root: Option<Child>)

  function AppendValue(s: State, child: Child): Result<State, XmlError> {
    if s.stack != [] then
      var top := s.stack[|s.stack| - 1];
      Ok(s.(stack := s.stack[..|s.stack| - 1] + [top.(children := top.children + [child])]))
    else if s.root.Some? then Err(MultipleRoots)
    else Ok(s.(root := Some(child)))
  }

  function PushText(s: State, text: string): State
    requires s.stack != []
  {
    var top := s.stack[|s.stack| - 1];
    s.(stack := s.stack[..|s.stack| - 1] + [top.(text := top.text + text)])
  }

  /** Text and references: into the innermost element, or blank outside the root. */
  function TakeText(s: State, text: string): Result<State, XmlError> {
    if !ValidText(text) then Err(InvalidCharacter)
    else if s.stack != [] then Ok(PushText(s, text))
    else if Trim(text) != "" then Err(TextOutsideRoot)
    else Ok(s)
  }

  function Step(s: State, event: Event, letters: Letters): Result<State, XmlError> {
    match event
    case Start(name, attributes) => (
      match Open(name, attributes, letters)
      case Err(e) => Err(e)
      case Ok(frame) => Ok(s.(stack := s.stack + [frame])))
    case Empty(name, attributes) => (
      match Open(name, attributes, letters)
      case Err(e) => Err(e)
      case Ok(frame) => AppendValue(s, Finish(frame)))
    case Text(text) => TakeText(s, LineEnds(text))
    case CData(text) =>
      if s.stack == [] then Ok(s)
      else if !ValidText(text) then Err(InvalidCharacter)
      else Ok(PushText(s, text))
    case Reference(resolved) => (
      match resolved
      case None => Err(UnknownEntity)
      case Some(text) => TakeText(s, text))
    case End(_) =>
      if s.stack == [] then Err(UnmatchedEnd)
      else AppendValue(s.(stack := s.stack[..|s.stack| - 1]), Finish(s.stack[|s.stack| - 1]))
    case DocType => Err(DoctypeForbidden)
    case Other => Ok(s)
  }

  function Run(s: State, events: seq<Event>, letters: Letters): Result<State, XmlError>
    decreases |events|
  {
    if events == [] then Ok(s)
    else match Step(s, events[0], letters)
      case Err(e) => Err(e)
      case Ok(next) => Run(next, events[1..], letters)
  }

  function Outcome(r: Result<State, XmlError>): Result<Value, XmlError> {
    match r
    case Err(e) => Err(e)
    case Ok(s) =>
      if s.stack != [] then Err(UnclosedElements)
      else match s.root
        case None => Err(MissingRoot)
        case Some(child) => Ok(Obj(map[child.name := child.value]))
  }

  function Parsed(events: seq<Event>, letters: Letters): Result<Value, XmlError> {
    Outcome(Run(State([], None), events, letters))
  }

  /** The reading loop. */
  method XmlToJson(events: seq<Event>, letters: Letters) returns (r: Result<Value, XmlError>)
    ensures r == Parsed(events, letters)
  {
    var stack: seq<Frame> := [];
    var root: Option<Child> := None;
    for i := 0 to |events|
      invariant Run(State([], None), events, letters) == Run(State(stack, root), events[i..], letters)
    {
      assert events[i..][0] == events[i] && events[i..][1..] == events[i + 1..];
      match events[i]
      case Start(name, attributes) =>
        match Open(name, attributes, letters) {
          case Err(e) => return Err(e);
          case Ok(frame) => stack := stack + [frame];
        }
      case Empty(name, attributes) =>
        match Open(name, attributes, letters) {
          case Err(e) => return Err(e);
          case Ok(frame) =>
            match AppendValue(State(stack, root), Finish(frame)) {
              case Err(e) => return Err(e);
              case Ok(s) => stack, root := s.stack, s.root;
            }
        }
      case End(_) =>
        if stack == [] {
          return Err(UnmatchedEnd);
        }
        var frame := stack[|stack| - 1];
        match AppendValue(State(stack[..|stack| - 1], root), Finish(frame)) {
          case Err(e) => return Err(e);
          case Ok(s) => stack, root := s.stack, s.root;
        }
      case Text(text) =>
        match TakeText(State(stack, root), LineEnds(text)) {
          case Err(e) => return Err(e);
          case Ok(s) => stack := s.stack;
        }
      case CData(text) =>
        if stack != [] {
          if !ValidText(text) {
            return Err(InvalidCharacter);
          }
          stack := PushText(State(stack, root), text).stack;
        }
      case Reference(resolved) =>
        match resolved {
          case None => return Err(UnknownEntity);
          case Some(text) =>
            match TakeText(State(stack, root), text) {
              case Err(e) => return Err(e);
              case Ok(s) => stack := s.stack;
            }
        }
      case DocType => return Err(DoctypeForbidden);
      case Other =>
    }
    assert events[|events|..] == [];
    r := Outcome(Ok(State(stack, root)));
  }
}
