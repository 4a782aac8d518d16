/** The reader against a grammar of documents: which event streams it accepts, and what it makes of them. */
module XmlTree {
  import opened Json
  import opened XmlText
  import opened Format
  import opened XmlRoundTrip

  // ---------- documents as trees ----------

  /** A part of a document: an element with content, one without, or an event that carries text or nothing. */
  datatype Part =
    | Element(name: string, attributes: seq<Attribute>, parts: seq<Part>, end: string)
    | Alone(name: string, attributes: seq<Attribute>)
    | Leaf(event: Event)

  /** The events of a part; the tokenizer has compared the names of the two tags. */
  function PartEvents(p: Part): seq<Event>
    decreases p, 1
  {
    match p
    case Element(name, attributes, parts, end) => [Start(name, attributes)] + Spelled(parts) + [End(end)]
    case Alone(name, attributes) => [Empty(name, attributes)]
    case Leaf(event) => [event]
  }

  function Spelled(parts: seq<Part>): seq<Event>
    decreases parts, 2
  {
    if parts == [] then [] else Spelled(parts[..|parts| - 1]) + PartEvents(parts[|parts| - 1])
  }

  predicate Carries(e: Event) {
    e.Text? || e.CData? || e.Other? || (e.Reference? && e.resolved.Some?)
  }

  /** The text that an event adds to the element around it. */
  function Says(e: Event): string {
    match e
    case Text(text) => LineEnds(text)
    case CData(text) => text
    case Reference(Some(text)) => text
    case _ => ""
  }

  predicate TagFits(name: string, attributes: seq<Attribute>, letters: Letters) {
    ValidName(name, letters) &&
    forall i :: 0 <= i < |attributes| ==> ValidName(attributes[i].name, letters) && ValidText(AttributeText(attributes[i].value))
  }

  /** Names and characters are those of XML, and references resolve. */
  predicate Readable(p: Part, letters: Letters)
    decreases p
  {
    match p
    case Element(name, attributes, parts, _) =>
      TagFits(name, attributes, letters) && forall i :: 0 <= i < |parts| ==> Readable(parts[i], letters)
    case Alone(name, attributes) => TagFits(name, attributes, letters)
    case Leaf(event) => Carries(event) && ValidText(Says(event))
  }

  predicate AllReadable(parts: seq<Part>, letters: Letters) {
    forall i :: 0 <= i < |parts| ==> Readable(parts[i], letters)
  }

  /** Text around the root is blank; a CDATA section there is passed over whatever it holds. */
  predicate Outside(p: Part, letters: Letters) {
    if p.Leaf? then p.event.CData? || (Carries(p.event) && ValidText(Says(p.event)) && Blank(Says(p.event)))
    else Readable(p, letters)
  }

  predicate AllOutside(parts: seq<Part>, letters: Letters) {
    forall i :: 0 <= i < |parts| ==> Outside(parts[i], letters)
  }

  // ---------- what a tree means ----------

  /** The text directly in an element. */
  function DirectText(parts: seq<Part>): string {
    if parts == [] then ""
    else DirectText(parts[..|parts| - 1]) + if parts[|parts| - 1].Leaf? then Says(parts[|parts| - 1].event) else ""
  }

  /** The child elements in document order. */
  function Elements(parts: seq<Part>): seq<Child>
    decreases parts, 2
  {
    if parts == [] then []
    else
      Elements(parts[..|parts| - 1]) +
      if parts[|parts| - 1].Leaf? then [] else [Child(parts[|parts| - 1].name, Meaning(parts[|parts| - 1]))]
  }

  /** The values of the children of one name, in document order. */
  function Values(children: seq<Child>, name: string): seq<Value> {
    if children == [] then []
    else
      Values(children[..|children| - 1], name) +
      if children[|children| - 1].name == name then [children[|children| - 1].value] else []
  }

  function AttributeValue(attributes: seq<Attribute>, key: string): string {
    if attributes == [] then ""
    else if "@" + attributes[|attributes| - 1].name == key then AttributeText(attributes[|attributes| - 1].value)
    else AttributeValue(attributes[..|attributes| - 1], key)
  }

  function AttributeKeys(attributes: seq<Attribute>): set<string> {
    set i | 0 <= i < |attributes| :: "@" + attributes[i].name
  }

  function ChildNames(children: seq<Child>): set<string> {
    set i | 0 <= i < |children| :: children[i].name
  }

  function AttributeMembers(attributes: seq<Attribute>): map<string, Value> {
    map k | k in AttributeKeys(attributes) :: Str(AttributeValue(attributes, k))
  }

  function Gathered(children: seq<Child>): map<string, Value> {
    map k | k in ChildNames(children) && Values(children, k) != [] :: Collapse(Values(children, k))
  }

  /** An element is its text if it has nothing else, and null without text; otherwise an object of its attributes,
      its children, those of one name as an array when there are several, and its text. */
  function ElementValue(attributes: seq<Attribute>, children: seq<Child>, text: string): Value {
    if attributes == [] && children == [] then if text == "" then Null else Str(text)
    else
      Obj(AttributeMembers(attributes) + Gathered(children) + if text == "" then map[] else map["#text" := Str(text)])
  }

  function Meaning(p: Part): Value
    decreases p, 1
  {
    match p
    case Element(_, attributes, parts, _) => ElementValue(attributes, Elements(parts), Trim(DirectText(parts)))
    case Alone(_, attributes) => ElementValue(attributes, [], "")
    case Leaf(_) => Null
  }

  /** One element with nothing but blank text around it. */
  predicate IsDocument(parts: seq<Part>, letters: Letters) {
    AllOutside(parts, letters) && |Elements(parts)| == 1
  }

  function DocumentValue(parts: seq<Part>): Value
    requires |Elements(parts)| == 1
  {
    Obj(map[Elements(parts)[0].name := Elements(parts)[0].value])
  }

  // ---------- finishing an element ----------

  lemma KeysNext(attributes: seq<Attribute>)
    requires attributes != []
    ensures var n := |attributes| - 1;
            forall k :: k in AttributeKeys(attributes) <==> k in AttributeKeys(attributes[..n]) || k == "@" + attributes[n].name
  {
    var rest, last := attributes[..|attributes| - 1], attributes[|attributes| - 1];
    forall k
      ensures k in AttributeKeys(attributes) <==> k in AttributeKeys(rest) || k == "@" + last.name
    {
      if k in AttributeKeys(attributes) {
        var i :| 0 <= i < |attributes| && "@" + attributes[i].name == k;
        assert i < |rest| ==> rest[i] == attributes[i];
      }
      if k in AttributeKeys(rest) {
        var i :| 0 <= i < |rest| && "@" + rest[i].name == k;
        assert attributes[i] == rest[i];
      }
    }
  }

  lemma {:induction false} AttributesAreRead(attributes: seq<Attribute>)
    ensures AttributeMap(attributes) == AttributeMembers(attributes)
    ensures AttributeMap(attributes) == map[] <==> attributes == []
  {
    hide AttributeText;
    if attributes != [] {
      AttributesAreRead(attributes[..|attributes| - 1]);
      KeysNext(attributes);
      hide AttributeKeys;
      assert "@" + attributes[|attributes| - 1].name in AttributeMap(attributes);
    }
  }

  lemma {:induction false} ValuesHere(children: seq<Child>, name: string)
    ensures Values(children, name) != [] <==> name in ChildNames(children)
    ensures (forall i :: 0 <= i < |children| ==> !children[i].value.Arr?) ==>
              forall i :: 0 <= i < |Values(children, name)| ==> !Values(children, name)[i].Arr?
  {
    if children != [] {
      var rest := children[..|children| - 1];
      ValuesHere(rest, name);
      ChildNamesNext(children);
    }
  }

  lemma ChildNamesNext(children: seq<Child>)
    requires children != []
    ensures ChildNames(children) == ChildNames(children[..|children| - 1]) + {children[|children| - 1].name}
  {
    var rest := children[..|children| - 1];
    forall k
      ensures k in ChildNames(children) <==> k in ChildNames(rest) || k == children[|children| - 1].name
    {
      if k in ChildNames(children) {
        var i :| 0 <= i < |children| && children[i].name == k;
        assert i < |rest| ==> rest[i] == children[i];
      }
      if k in ChildNames(rest) {
        var i :| 0 <= i < |rest| && rest[i].name == k;
        assert children[i] == rest[i];
      }
    }
  }

  lemma ValuesNext(children: seq<Child>, k: string)
    requires children != []
    ensures var rest, last := children[..|children| - 1], children[|children| - 1];
            Values(children, k) == if k == last.name then Values(rest, k) + [last.value] else Values(rest, k)
  {
    var rest := children[..|children| - 1];
    assert Values(rest, k) + [] == Values(rest, k);
  }

  lemma GatheredAt(children: seq<Child>, k: string)
    ensures k in Gathered(children) <==> Values(children, k) != []
    ensures k in Gathered(children) ==> Gathered(children)[k] == Collapse(Values(children, k))
  {
    ValuesHere(children, k);
  }

  lemma {:induction false} GatheredNext(children: seq<Child>)
    requires children != []
    ensures var rest, last := children[..|children| - 1], children[|children| - 1];
            && (last.name in Gathered(rest) <==> Values(rest, last.name) != [])
            && Gathered(children) == Gathered(rest)[last.name := Collapse(Values(rest, last.name) + [last.value])]
  {
    var rest, last := children[..|children| - 1], children[|children| - 1];
    hide Gathered, Collapse, Values;
    var now := Gathered(rest)[last.name := Collapse(Values(rest, last.name) + [last.value])];
    GatheredAt(rest, last.name);
    forall k
      ensures k in Gathered(children) <==> k in now
      ensures k in now ==> Gathered(children)[k] == now[k]
    {
      GatheredAt(rest, k);
      GatheredAt(children, k);
      ValuesNext(children, k);
    }
  }

  /** Adding children one by one gathers those of each name in order. */
  lemma {:induction false} ChildrenAreGathered(o: map<string, Value>, children: seq<Child>)
    requires forall i :: 0 <= i < |children| ==> children[i].name !in o && !children[i].value.Arr?
    ensures AddChildren(o, children) == o + Gathered(children)
  {
    hide Gathered, Values;
    if children == [] {
      NothingGathered();
    } else {
      var rest, last := children[..|children| - 1], children[|children| - 1];
      forall i | 0 <= i < |rest|
        ensures rest[i].name !in o && !rest[i].value.Arr?
      {
        assert rest[i] == children[i];
      }
      ChildrenAreGathered(o, rest);
      GatheredNext(children);
      ValuesHere(rest, last.name);
      GatheredAt(rest, last.name);
      hide Collapse, AddChild;
      GatherOne(AddChildren(o, rest), Values(rest, last.name), last);
    }
  }

  lemma NothingGathered()
    ensures Gathered([]) == map[]
  {
  }

  lemma GatherOne(before: map<string, Value>, values: seq<Value>, last: Child)
    requires if values == [] then last.name !in before else last.name in before && before[last.name] == Collapse(values)
    requires forall i :: 0 <= i < |values| ==> !values[i].Arr?
    ensures AddChild(before, last) == before[last.name := Collapse(values + [last.value])]
  {
    if |values| == 1 {
      assert values == [values[0]];
      assert values + [last.value] == [values[0], last.value];
    }
  }

  lemma MeaningIsNoArray(p: Part)
    ensures !Meaning(p).Arr?
  {
  }

  lemma {:induction false} ElementsHere(parts: seq<Part>, letters: Letters)
    requires AllReadable(parts, letters)
    ensures forall i :: 0 <= i < |Elements(parts)| ==> ValidName(Elements(parts)[i].name, letters) && !Elements(parts)[i].value.Arr?
  {
    if parts != [] {
      var last := parts[|parts| - 1];
      ElementsHere(parts[..|parts| - 1], letters);
      assert Readable(last, letters);
      MeaningIsNoArray(last);
      hide ValidName, Meaning;
    }
  }

  lemma {:induction false} NameIsNoKey(name: string, letters: Letters)
    requires ValidName(name, letters)
    ensures name != "#text" && !IsAttributeKey(name)
  {
    var parts := SplitColon(name);
    assert ValidNamePart(parts[0], letters);
    if name != "" && (name[0] == '@' || name[0] == '#') {
      assert parts[0] == [name[0]] + SplitColon(name[1..])[0];
    }
  }

  /** What the reader makes of a finished frame is what the element means. */
  lemma {:induction false} FinishedElement(name: string, attributes: seq<Attribute>, parts: seq<Part>, letters: Letters)
    requires AllReadable(parts, letters)
    ensures Finish(Frame(name, AttributeMap(attributes), Elements(parts), DirectText(parts)))
            == Child(name, ElementValue(attributes, Elements(parts), Trim(DirectText(parts))))
  {
    var children := Elements(parts);
    AttributesAreRead(attributes);
    ElementsHere(parts, letters);
    hide Trim, DirectText, Elements, ValidName, AttributeMap;
    forall i | 0 <= i < |children|
      ensures children[i].name !in AttributeMap(attributes)
    {
      NameIsNoKey(children[i].name, letters);
    }
    hide AttributeMembers, Gathered, AddChildren;
    ChildrenAreGathered(AttributeMap(attributes), children);
    TextComesLast(AttributeMembers(attributes) + Gathered(children), Trim(DirectText(parts)));
  }

  lemma TextComesLast(o: map<string, Value>, text: string)
    ensures o + (if text == "" then map[] else map["#text" := Str(text)]) == if text == "" then o else o["#text" := Str(text)]
  {
  }

  // ---------- every readable tree is read ----------

  function Adds(p: Part): seq<Child> {
    if p.Leaf? then [] else [Child(p.name, Meaning(p))]
  }

  function AddsText(p: Part): string {
    if p.Leaf? then Says(p.event) else ""
  }

  lemma {:induction false} RunPart(s: State, p: Part, letters: Letters)
    requires s.stack != [] && Readable(p, letters)
    ensures Run(s, PartEvents(p), letters) == Ok(Grown(s, Adds(p), AddsText(p)))
    decreases p, 1
  {
    if p.Leaf? {
      RunOne(s, p.event, letters);
      LeafGrows(s, p.event, letters);
    } else {
      RunElement(s, p, letters);
      hide Meaning, Run, Readable, AppendValue;
      WithTextTwice(s, "", "");
      AppendGrows(s, Child(p.name, Meaning(p)), "");
    }
  }

  /** An element is read and delivered with its meaning. */
  lemma {:induction false} RunElement(s: State, p: Part, letters: Letters)
    requires !p.Leaf? && Readable(p, letters)
    ensures Run(s, PartEvents(p), letters) == AppendValue(s, Child(p.name, Meaning(p)))
    decreases p, 0
  {
    match p
    case Alone(name, attributes) =>
      RunOne(s, Empty(name, attributes), letters);
      FinishedElement(name, attributes, [], letters);
      assert Elements([]) == [] && DirectText([]) == "" && Trim("") == "";
      hide Finish, AttributeMap, Run, AppendValue, ElementValue, ValidName, ValidText, AttributeText;
    case Element(name, attributes, parts, end) =>
      var within := Opened(s, name, attributes);
      RunParts(within, parts, letters);
      FinishedElement(name, attributes, parts, letters);
      StartOpens(s, name, attributes, letters);
      var full := Grown(within, Elements(parts), DirectText(parts));
      hide Finish, AttributeMap, Readable, Spelled, Elements, DirectText, AppendValue, ElementValue, Run, Step, TagFits, Opened;
      RunConcat(s, [Start(name, attributes)], Spelled(parts), letters);
      RunConcat(s, [Start(name, attributes)] + Spelled(parts), [End(end)], letters);
      RunOne(full, End(end), letters);
      EndFinishes(s, name, attributes, Elements(parts), DirectText(parts), end, letters);
  }

  lemma StartOpens(s: State, name: string, attributes: seq<Attribute>, letters: Letters)
    requires TagFits(name, attributes, letters)
    ensures Run(s, [Start(name, attributes)], letters) == Ok(Opened(s, name, attributes))
    ensures Opened(s, name, attributes).stack != []
  {
    RunOne(s, Start(name, attributes), letters);
    hide Run, AttributeMap, ValidName, ValidText, AttributeText;
  }

  lemma EndFinishes(s: State, name: string, attributes: seq<Attribute>, children: seq<Child>, text: string, end: string,
                    letters: Letters)
    requires Opened(s, name, attributes).stack != []
    ensures Step(Grown(Opened(s, name, attributes), children, text), End(end), letters)
            == AppendValue(s, Finish(Frame(name, AttributeMap(attributes), children, text)))
  {
    hide Finish, AppendValue, AttributeMap;
    var full := Grown(Opened(s, name, attributes), children, text);
    assert [] + children == children && "" + text == text;
    assert full.stack[..|s.stack|] == s.stack;
  }

  lemma LeafGrows(s: State, event: Event, letters: Letters)
    requires s.stack != [] && Carries(event) && ValidText(Says(event))
    ensures Step(s, event, letters) == Ok(Grown(s, [], Says(event)))
  {
    var top := s.stack[|s.stack| - 1];
    assert top.children + [] == top.children;
    GrownTwice(s, [], "", [], "");
    hide LineEnds;
  }

  lemma {:induction false} RunParts(s: State, parts: seq<Part>, letters: Letters)
    requires s.stack != [] && AllReadable(parts, letters)
    ensures Run(s, Spelled(parts), letters) == Ok(Grown(s, Elements(parts), DirectText(parts)))
    decreases parts, 2
  {
    hide PartEvents, Grown, Readable;
    if parts == [] {
      GrownTwice(s, [], "", [], "");
    } else {
      var rest, last := parts[..|parts| - 1], parts[|parts| - 1];
      RunParts(s, rest, letters);
      RunConcat(s, Spelled(rest), PartEvents(last), letters);
      GrownStack(s, Elements(rest), DirectText(rest));
      RunPart(Grown(s, Elements(rest), DirectText(rest)), last, letters);
      GrownTwice(s, Elements(rest), DirectText(rest), Adds(last), AddsText(last));
    }
  }

  lemma GrownStack(s: State, children: seq<Child>, text: string)
    requires s.stack != []
    ensures Grown(s, children, text).stack != []
  {
  }

  lemma {:induction false} RunOutside(parts: seq<Part>, letters: Letters)
    requires AllOutside(parts, letters) && |Elements(parts)| <= 1
    ensures Run(State([], None), Spelled(parts), letters)
            == Ok(State([], if Elements(parts) == [] then None else Some(Elements(parts)[0])))
  {
    if parts != [] {
      var rest, last := parts[..|parts| - 1], parts[|parts| - 1];
      RunOutside(rest, letters);
      RunConcat(State([], None), Spelled(rest), PartEvents(last), letters);
      hide Meaning, Spelled, Readable;
      OneOutside(if Elements(rest) == [] then None else Some(Elements(rest)[0]), last, letters);
    }
  }

  lemma {:induction false} OneOutside(root: Option<Child>, p: Part, letters: Letters)
    requires Outside(p, letters) && (root.Some? ==> p.Leaf?)
    ensures Run(State([], root), PartEvents(p), letters)
            == Ok(State([], if p.Leaf? then root else Some(Child(p.name, Meaning(p)))))
  {
    var s := State([], root);
    if !p.Leaf? {
      RunElement(s, p, letters);
      hide Meaning, Run, Readable;
    } else {
      RunOne(s, p.event, letters);
      if !p.event.CData? {
        TrimBlank(Says(p.event));
      }
      hide Trim, LineEnds;
    }
  }

  // ---------- everything that is read is a readable tree ----------

  /** An element whose end tag has not come yet. */
  datatype Context = Context(name: string, attributes: seq<Attribute>, parts: seq<Part>)

  /** What has been read: finished parts around the root and the open elements, innermost last. */
  datatype Reading = Reading(top: seq<Part>, open: seq<Context>)

  function OpenEvents(open: seq<Context>): seq<Event> {
    if open == [] then []
    else
      var last := open[|open| - 1];
      OpenEvents(open[..|open| - 1]) + ([Start(last.name, last.attributes)] + Spelled(last.parts))
  }

  function EventsOf(g: Reading): seq<Event> {
    Spelled(g.top) + OpenEvents(g.open)
  }

  /** The open elements are the frames of the stack, and the finished one around them is the root. */
  ghost predicate Stands(s: State, g: Reading, letters: Letters) {
    && |s.stack| == |g.open|
    && (forall i :: 0 <= i < |g.open| ==> IsFrame(s.stack[i], g.open[i], letters))
    && AllOutside(g.top, letters) && |Elements(g.top)| <= 1
    && s.root == if Elements(g.top) == [] then None else Some(Elements(g.top)[0])
  }

  predicate IsFrame(f: Frame, c: Context, letters: Letters) {
    && TagFits(c.name, c.attributes, letters) && AllReadable(c.parts, letters)
    && f == Frame(c.name, AttributeMap(c.attributes), Elements(c.parts), DirectText(c.parts))
  }

  /** The reading after another part. */
  function With(g: Reading, p: Part): Reading {
    if g.open == [] then g.(top := g.top + [p])
    else
      var last := g.open[|g.open| - 1];
      g.(open := g.open[..|g.open| - 1] + [last.(parts := last.parts + [p])])
  }

  lemma {:induction false} WithEvents(g: Reading, p: Part)
    ensures EventsOf(With(g, p)) == EventsOf(g) + PartEvents(p)
  {
    hide PartEvents;
    if g.open == [] {
      assert (g.top + [p])[..|g.top|] == g.top;
      assert OpenEvents([]) == [];
    } else {
      var rest, last := g.open[..|g.open| - 1], g.open[|g.open| - 1];
      var more := rest + [last.(parts := last.parts + [p])];
      assert more[..|more| - 1] == rest;
      assert (last.parts + [p])[..|last.parts|] == last.parts;
      hide Spelled, OpenEvents;
    }
  }

  lemma {:induction false} AfterPart(parts: seq<Part>, p: Part)
    ensures Elements(parts + [p]) == Elements(parts) + Adds(p)
    ensures DirectText(parts + [p]) == DirectText(parts) + AddsText(p)
  {
    assert (parts + [p])[..|parts|] == parts;
  }

  lemma FrameWith(f: Frame, c: Context, p: Part, letters: Letters)
    requires IsFrame(f, c, letters) && Readable(p, letters)
    ensures IsFrame(f.(children := f.children + Adds(p), text := f.text + AddsText(p)), c.(parts := c.parts + [p]), letters)
  {
    AfterPart(c.parts, p);
    hide Readable, Elements, DirectText, AttributeMap, TagFits;
  }

  /** A part inside the innermost element. */
  lemma {:induction false} StandsWith(s: State, g: Reading, p: Part, letters: Letters)
    requires Stands(s, g, letters) && g.open != [] && Readable(p, letters)
    ensures Stands(XmlRoundTrip.Grown(s, Adds(p), AddsText(p)), With(g, p), letters)
  {
    var k := |g.open| - 1;
    var f, c := s.stack[k], g.open[k];
    assert IsFrame(f, c, letters);
    FrameWith(f, c, p, letters);
    hide IsFrame, Elements, AllOutside, Adds, AddsText;
    LastReplaced(s.stack, f.(children := f.children + Adds(p), text := f.text + AddsText(p)));
    LastReplaced(g.open, c.(parts := c.parts + [p]));
    var t, h := XmlRoundTrip.Grown(s, Adds(p), AddsText(p)), With(g, p);
    assert t.root == s.root && h.top == g.top;
    hide XmlRoundTrip.Grown, With;
    forall i | 0 <= i < |h.open|
      ensures IsFrame(t.stack[i], h.open[i], letters)
    {
      assert i < k ==> IsFrame(s.stack[i], g.open[i], letters);
    }
  }

  lemma LastReplaced<T>(xs: seq<T>, x: T)
    requires xs != []
    ensures var ys := xs[..|xs| - 1] + [x];
            |ys| == |xs| && ys[|xs| - 1] == x && forall i :: 0 <= i < |xs| - 1 ==> ys[i] == xs[i]
  {
  }

  /** A part around the root. */
  lemma {:induction false} StandsOutside(s: State, g: Reading, p: Part, letters: Letters)
    requires Stands(s, g, letters) && g.open == [] && Outside(p, letters) && (!p.Leaf? ==> s.root.None?)
    ensures Stands(if p.Leaf? then s else s.(root := Some(Child(p.name, Meaning(p)))), With(g, p), letters)
  {
    AfterPart(g.top, p);
    hide Outside, Elements, DirectText, Meaning;
  }

  /** A finished element is delivered to where it stands. */
  lemma {:induction false} StandsDelivered(s: State, g: Reading, p: Part, letters: Letters)
    requires Stands(s, g, letters) && !p.Leaf? && Readable(p, letters)
    requires AppendValue(s, Child(p.name, Meaning(p))).Ok?
    ensures Stands(AppendValue(s, Child(p.name, Meaning(p))).value, With(g, p), letters)
  {
    hide Stands, Readable, Meaning, With;
    assert |s.stack| == |g.open| by {
      StandsDepth(s, g, letters);
    }
    if g.open == [] {
      StandsOutside(s, g, p, letters);
    } else {
      StandsWith(s, g, p, letters);
      WithTextTwice(s, "", "");
      AppendGrows(s, Child(p.name, Meaning(p)), "");
    }
  }

  lemma StandsDepth(s: State, g: Reading, letters: Letters)
    requires Stands(s, g, letters)
    ensures |s.stack| == |g.open|
  {
  }

  lemma {:induction false} StepLeaf(s: State, g: Reading, event: Event, letters: Letters)
    requires Stands(s, g, letters) && Step(s, event, letters).Ok?
    requires event.Text? || event.CData? || event.Reference? || event.Other?
    ensures Stands(Step(s, event, letters).value, With(g, Leaf(event)), letters)
  {
    StandsDepth(s, g, letters);
    hide Stands, With, LineEnds, ValidText;
    if g.open == [] {
      assert Outside(Leaf(event), letters) by {
        if !event.CData? {
          assert Trim(Says(event)) == "";
          TrimmedToNothing(Says(event));
        }
      }
      StandsOutside(s, g, Leaf(event), letters);
    } else {
      StandsWith(s, g, Leaf(event), letters);
      LeafGrows(s, event, letters);
    }
  }

  lemma TrimmedToNothing(text: string)
    requires Trim(text) == ""
    ensures Blank(text) && (text == "" ==> ValidText(text))
  {
    TrimmedAround(text);
  }

  lemma {:induction false} StepStart(s: State, g: Reading, name: string, attributes: seq<Attribute>, letters: Letters)
    requires Stands(s, g, letters) && Step(s, Start(name, attributes), letters).Ok?
    ensures Stands(Step(s, Start(name, attributes), letters).value, g.(open := g.open + [Context(name, attributes, [])]), letters)
  {
    hide Outside, AttributeMap, ValidName, ValidText, AttributeText;
  }

  lemma {:induction false} StepEmpty(s: State, g: Reading, name: string, attributes: seq<Attribute>, letters: Letters)
    requires Stands(s, g, letters) && Step(s, Empty(name, attributes), letters).Ok?
    ensures Stands(Step(s, Empty(name, attributes), letters).value, With(g, Alone(name, attributes)), letters)
  {
    hide Stands, With;
    FinishedElement(name, attributes, [], letters);
    assert Elements([]) == [] && DirectText([]) == "" && Trim("") == "";
    hide Finish, AttributeMap, AppendValue, ElementValue, ValidName, ValidText, AttributeText;
    StandsDelivered(s, g, Alone(name, attributes), letters);
  }

  lemma {:induction false} StepEnd(s: State, g: Reading, end: string, letters: Letters)
    requires Stands(s, g, letters) && Step(s, End(end), letters).Ok?
    ensures g.open != []
    ensures var last := g.open[|g.open| - 1];
            Stands(Step(s, End(end), letters).value,
                   With(g.(open := g.open[..|g.open| - 1]), Element(last.name, last.attributes, last.parts, end)), letters)
  {
    var last := g.open[|g.open| - 1];
    var popped, before := s.(stack := s.stack[..|s.stack| - 1]), g.(open := g.open[..|g.open| - 1]);
    var p := Element(last.name, last.attributes, last.parts, end);
    assert IsFrame(s.stack[|g.open| - 1], last, letters);
    FinishedElement(last.name, last.attributes, last.parts, letters);
    hide Finish, AttributeMap, AppendValue, ElementValue, TagFits, Outside, Elements, DirectText;
    assert Stands(popped, before, letters);
    assert Readable(p, letters);
    hide Stands, With, Readable;
    StandsDelivered(popped, before, p, letters);
  }

  lemma {:induction false} ClosedEvents(g: Reading, end: string)
    requires g.open != []
    ensures var last := g.open[|g.open| - 1];
            EventsOf(With(g.(open := g.open[..|g.open| - 1]), Element(last.name, last.attributes, last.parts, end)))
            == EventsOf(g) + [End(end)]
  {
    var last := g.open[|g.open| - 1];
    WithEvents(g.(open := g.open[..|g.open| - 1]), Element(last.name, last.attributes, last.parts, end));
    hide Spelled, With;
  }

  lemma {:induction false} StepStands(s: State, g: Reading, event: Event, letters: Letters) returns (next: Reading)
    requires Stands(s, g, letters) && Step(s, event, letters).Ok?
    ensures Stands(Step(s, event, letters).value, next, letters)
    ensures EventsOf(next) == EventsOf(g) + [event]
  {
    hide Stands, EventsOf, With;
    match event
    case Start(name, attributes) =>
      next := g.(open := g.open + [Context(name, attributes, [])]);
      StepStart(s, g, name, attributes, letters);
      StartedEvents(g, name, attributes);
    case Empty(name, attributes) =>
      next := With(g, Alone(name, attributes));
      StepEmpty(s, g, name, attributes, letters);
      WithEvents(g, Alone(name, attributes));
    case End(end) =>
      StepEnd(s, g, end, letters);
      var last := g.open[|g.open| - 1];
      next := With(g.(open := g.open[..|g.open| - 1]), Element(last.name, last.attributes, last.parts, end));
      ClosedEvents(g, end);
    case DocType => next := g;
    case _ =>
      next := With(g, Leaf(event));
      StepLeaf(s, g, event, letters);
      WithEvents(g, Leaf(event));
  }

  lemma StartedEvents(g: Reading, name: string, attributes: seq<Attribute>)
    ensures EventsOf(g.(open := g.open + [Context(name, attributes, [])])) == EventsOf(g) + [Start(name, attributes)]
  {
    var more := g.open + [Context(name, attributes, [])];
    assert more[..|g.open|] == g.open;
    assert Spelled([]) == [];
  }

  lemma {:induction false} RunStands(s: State, g: Reading, events: seq<Event>, letters: Letters) returns (last: Reading)
    requires Stands(s, g, letters) && Run(s, events, letters).Ok?
    ensures Stands(Run(s, events, letters).value, last, letters)
    ensures EventsOf(last) == EventsOf(g) + events
    decreases |events|
  {
    hide Stands, EventsOf, Step;
    last := g;
    if events == [] {
      assert EventsOf(g) + [] == EventsOf(g);
    } else {
      var next := StepStands(s, g, events[0], letters);
      last := RunStands(Step(s, events[0], letters).value, next, events[1..], letters);
      assert events == [events[0]] + events[1..];
      assert EventsOf(g) + [events[0]] + events[1..] == EventsOf(g) + ([events[0]] + events[1..]);
    }
  }

  // ---------- the reader accepts exactly the documents ----------

  ghost predicate DocumentOf(events: seq<Event>, parts: seq<Part>, v: Value, letters: Letters) {
    IsDocument(parts, letters) && Spelled(parts) == events && DocumentValue(parts) == v
  }

  /** The reader gives a value exactly for the events of a document that has this meaning. */
  lemma {:induction false} ReaderAccepts(events: seq<Event>, v: Value, letters: Letters)
    ensures Parsed(events, letters) == Ok(v) <==> exists parts :: DocumentOf(events, parts, v, letters)
  {
    hide Run, Stands, Spelled, Elements, AllOutside, OpenEvents;
    if Parsed(events, letters) == Ok(v) {
      StandsEmpty(letters);
      var g := RunStands(State([], None), Reading([], []), events, letters);
      DocumentStands(Run(State([], None), events, letters).value, g, letters);
      assert Spelled([]) == [] && OpenEvents([]) == [] by {
        NoEvents();
      }
      assert [] + [] + events == events;
      assert DocumentOf(events, g.top, v, letters);
    }
    if parts :| DocumentOf(events, parts, v, letters) {
      RunOutside(parts, letters);
    }
  }

  lemma NoEvents()
    ensures Spelled([]) == [] && OpenEvents([]) == []
  {
  }

  lemma StandsEmpty(letters: Letters)
    ensures Stands(State([], None), Reading([], []), letters)
  {
  }

  lemma DocumentStands(s: State, g: Reading, letters: Letters)
    requires Stands(s, g, letters) && s.stack == [] && s.root.Some?
    ensures g.open == [] && IsDocument(g.top, letters) && s.root == Some(Elements(g.top)[0])
    ensures EventsOf(g) == Spelled(g.top)
  {
    hide Outside;
    assert OpenEvents([]) == [];
  }

  // ---------- CDATA sections ----------

  /** How many elements are open after some events. */
  function Level(events: seq<Event>): int {
    if events == [] then 0
    else
      var last := events[|events| - 1];
      Level(events[..|events| - 1]) + if last.Start? then 1 else if last.End? then -1 else 0
  }

  /** How many elements have been finished outside all others. */
  function Roots(events: seq<Event>): nat {
    if events == [] then 0
    else
      var before, last := events[..|events| - 1], events[|events| - 1];
      Roots(before) + if (last.Empty? && Level(before) == 0) || (last.End? && Level(before) == 1) then 1 else 0
  }

  lemma {:induction false} StepLevel(s: State, event: Event, letters: Letters)
    requires Step(s, event, letters).Ok?
    ensures var next, level := Step(s, event, letters).value, |s.stack|;
            && |next.stack| == level + (if event.Start? then 1 else if event.End? then -1 else 0)
            && (if (event.Empty? && level == 0) || (event.End? && level == 1) then s.root.None? && next.root.Some?
                else next.root == s.root)
  {
    hide Open, Finish, ValidText, LineEnds, Trim;
  }

  lemma {:induction false} RunLevel(events: seq<Event>, letters: Letters)
    requires Run(State([], None), events, letters).Ok?
    ensures var s := Run(State([], None), events, letters).value;
            |s.stack| == Level(events) && Roots(events) == if s.root.Some? then 1 else 0
    decreases |events|
  {
    if events != [] {
      var before, last := events[..|events| - 1], events[|events| - 1];
      assert events == before + [last];
      RunConcat(State([], None), before, [last], letters);
      RunLevel(before, letters);
      RunOne(Run(State([], None), before, letters).value, last, letters);
      StepLevel(Run(State([], None), before, letters).value, last, letters);
      hide Run, Step;
    }
  }

  /** A CDATA section inside an element is read as a reference that resolves to its text. */
  lemma {:induction false} CDataIsText(events: seq<Event>, i: nat, text: string, letters: Letters)
    requires i < |events| && events[i] == CData(text) && Level(events[..i]) > 0
    ensures Parsed(events[i := Reference(Some(text))], letters) == Parsed(events, letters)
  {
    var start := State([], None);
    var before, after := events[..i], events[i + 1..];
    assert events == before + ([CData(text)] + after);
    assert events[i := Reference(Some(text))] == before + ([Reference(Some(text))] + after);
    RunConcat(start, before, [CData(text)] + after, letters);
    RunConcat(start, before, [Reference(Some(text))] + after, letters);
    if Run(start, before, letters).Ok? {
      RunLevel(before, letters);
      var s := Run(start, before, letters).value;
      assert ([CData(text)] + after)[1..] == after && ([Reference(Some(text))] + after)[1..] == after;
      assert Step(s, CData(text), letters) == Step(s, Reference(Some(text)), letters);
      hide Step;
    }
  }

  // ---------- the error of the reader ----------

  predicate AttributeFits(a: Attribute, letters: Letters) {
    ValidName(a.name, letters) && ValidText(AttributeText(a.value))
  }

  /** The error of a tag: that of its name, or of its first attribute with a bad name or a bad character. */
  ghost predicate TagFault(name: string, attributes: seq<Attribute>, e: XmlError, letters: Letters) {
    if !ValidName(name, letters) then e == InvalidName(name)
    else
      exists k :: 0 <= k < |attributes| && !AttributeFits(attributes[k], letters)
        && (forall j :: 0 <= j < k ==> AttributeFits(attributes[j], letters))
        && e == if ValidName(attributes[k].name, letters) then InvalidCharacter else InvalidName(attributes[k].name)
  }

  /** The error of an event that comes when `level` elements are open and `roots` are finished. */
  ghost predicate Fault(level: int, roots: nat, event: Event, e: XmlError, letters: Letters) {
    match event
    case Start(name, attributes) => TagFault(name, attributes, e, letters)
    case Empty(name, attributes) =>
      TagFault(name, attributes, e, letters) ||
      (TagFits(name, attributes, letters) && level == 0 && roots > 0 && e == MultipleRoots)
    case End(_) => (level == 0 && e == UnmatchedEnd) || (level == 1 && roots > 0 && e == MultipleRoots)
    case CData(text) => level > 0 && !ValidText(text) && e == InvalidCharacter
    case Reference(None) => e == UnknownEntity
    case DocType => e == DoctypeForbidden
    case _ =>
      if !ValidText(Says(event)) then e == InvalidCharacter
      else level == 0 && !Blank(Says(event)) && e == TextOutsideRoot
  }

  lemma {:induction false} FirstAttribute(attributes: seq<Attribute>, letters: Letters) returns (k: nat)
    requires AttributeFault(attributes, letters).Some?
    ensures k < |attributes| && !AttributeFits(attributes[k], letters)
    ensures forall j :: 0 <= j < k ==> AttributeFits(attributes[j], letters)
    ensures AttributeFault(attributes, letters) ==
            Some(if ValidName(attributes[k].name, letters) then InvalidCharacter else InvalidName(attributes[k].name))
  {
    hide ValidName, ValidText, AttributeText, ValidAttributes;
    k := 0;
    if AttributeFits(attributes[0], letters) {
      k := FirstAttribute(attributes[1..], letters);
      assert attributes[1..][k] == attributes[k + 1];
      k := k + 1;
    }
  }

  lemma {:induction false} OpenFault(name: string, attributes: seq<Attribute>, e: XmlError, letters: Letters)
    ensures Open(name, attributes, letters) == Err(e) <==> TagFault(name, attributes, e, letters)
    ensures Open(name, attributes, letters).Ok? <==> TagFits(name, attributes, letters)
  {
    hide ValidName, ValidText, AttributeText, AttributeMap;
    if ValidName(name, letters) && AttributeFault(attributes, letters).Some? {
      var k := FirstAttribute(attributes, letters);
    }
  }

  lemma {:induction false} StepFault(s: State, event: Event, e: XmlError, letters: Letters)
    ensures Step(s, event, letters) == Err(e) <==> Fault(|s.stack|, if s.root.Some? then 1 else 0, event, e, letters)
  {
    assert ValidText("");
    hide ValidText, LineEnds, Trim, Finish, TagFault, TagFits, Open;
    match event
    case Start(name, attributes) => OpenFault(name, attributes, e, letters);
    case Empty(name, attributes) => OpenFault(name, attributes, e, letters);
    case Text(text) => TrimmedAround(LineEnds(text));
    case Reference(Some(text)) => TrimmedAround(text);
    case Other => TrimmedAround("");
    case _ =>
  }

  ghost predicate FailsAt(events: seq<Event>, n: nat, e: XmlError, letters: Letters)
    requires n < |events|
  {
    Fault(Level(events[..n]), Roots(events[..n]), events[n], e, letters)
  }

  ghost predicate FirstFailure(events: seq<Event>, n: nat, e: XmlError, letters: Letters) {
    n < |events| && FailsAt(events, n, e, letters) && forall m, d :: 0 <= m < n ==> !FailsAt(events, m, d, letters)
  }

  ghost predicate NoFailure(events: seq<Event>, letters: Letters) {
    forall m, d :: 0 <= m < |events| ==> !FailsAt(events, m, d, letters)
  }

  /** After a failure nothing that follows matters. */
  lemma {:induction false} FailedBefore(events: seq<Event>, before: seq<Event>, e: XmlError, letters: Letters)
    requires events != [] && before == events[..|events| - 1] && !NoFailure(before, letters)
    ensures !NoFailure(events, letters)
    ensures (exists n :: FirstFailure(before, n, e, letters)) <==> exists n :: FirstFailure(events, n, e, letters)
  {
    FailsInPrefix(events, letters);
    hide FailsAt;
    if k: nat :| FirstFailure(before, k, e, letters) {
      assert FirstFailure(events, k, e, letters);
    }
    if k: nat :| FirstFailure(events, k, e, letters) {
      assert k < |before|;
      assert FirstFailure(before, k, e, letters);
    }
  }

  lemma {:induction false} FailsLast(events: seq<Event>, n: nat, e: XmlError, letters: Letters)
    requires n + 1 == |events| && NoFailure(events[..n], letters)
    ensures NoFailure(events, letters) <==> forall d :: !FailsAt(events, n, d, letters)
    ensures (exists k :: FirstFailure(events, k, e, letters)) <==> FailsAt(events, n, e, letters)
  {
    FailsInPrefix(events, letters);
    hide FailsAt;
    if FailsAt(events, n, e, letters) {
      assert FirstFailure(events, n, e, letters);
    }
  }

  lemma {:induction false} RunFails(events: seq<Event>, e: XmlError, letters: Letters)
    ensures Run(State([], None), events, letters) == Err(e) <==> exists n :: FirstFailure(events, n, e, letters)
    ensures Run(State([], None), events, letters).Ok? <==> NoFailure(events, letters)
    decreases |events|
  {
    hide FirstFailure, FailsAt;
    var start := State([], None);
    if events != [] {
      var before, last := events[..|events| - 1], events[|events| - 1];
      assert events == before + [last];
      RunConcat(start, before, [last], letters);
      RunFails(before, e, letters);
      hide NoFailure;
      if Run(start, before, letters).Ok? {
        var run := Run(start, events, letters);
        StepFails(events, |before|, letters);
        FailsLast(events, |before|, e, letters);
        assert run.Err? ==> FailsAt(events, |before|, run.error, letters);
      } else {
        FailedBefore(events, before, e, letters);
      }
    } else {
      NothingFails(e, letters);
    }
  }

  lemma NothingFails(e: XmlError, letters: Letters)
    ensures forall n :: !FirstFailure([], n, e, letters)
  {
  }

  lemma {:induction false} StepFails(events: seq<Event>, n: nat, letters: Letters)
    requires n + 1 == |events| && Run(State([], None), events[..n], letters).Ok?
    ensures forall d :: FailsAt(events, n, d, letters) <==> Run(State([], None), events, letters) == Err(d)
  {
    var before, last := events[..n], events[n];
    var s := Run(State([], None), before, letters).value;
    assert events == before + [last];
    RunConcat(State([], None), before, [last], letters);
    RunOne(s, last, letters);
    RunLevel(before, letters);
    forall d
      ensures FailsAt(events, n, d, letters) <==> Step(s, last, letters) == Err(d)
    {
      StepFault(s, last, d, letters);
      LastFails(events, d, letters);
    }
  }

  lemma LastFails(events: seq<Event>, d: XmlError, letters: Letters)
    requires events != []
    ensures var before := events[..|events| - 1];
            FailsAt(events, |events| - 1, d, letters) <==>
            Fault(Level(before), Roots(before), events[|events| - 1], d, letters)
  {
  }

  lemma {:induction false} FailsInPrefix(events: seq<Event>, letters: Letters)
    requires events != []
    ensures var before := events[..|events| - 1];
            forall m, d :: 0 <= m < |before| ==> (FailsAt(before, m, d, letters) <==> FailsAt(events, m, d, letters))
  {
    var before := events[..|events| - 1];
    hide Fault, Level, Roots;
    forall m, d | 0 <= m < |before|
      ensures FailsAt(before, m, d, letters) == FailsAt(events, m, d, letters)
    {
      assert before[..m] == events[..m];
    }
  }

  /** The reader fails with the error of the first faulty event, or because an element is left open or none came. */
  lemma {:induction false} ReaderFails(events: seq<Event>, e: XmlError, letters: Letters)
    ensures Parsed(events, letters) == Err(e) <==>
            (exists n :: FirstFailure(events, n, e, letters)) ||
            (NoFailure(events, letters) &&
             if Level(events) > 0 then e == UnclosedElements else Roots(events) == 0 && e == MissingRoot)
  {
    RunFails(events, e, letters);
    if Run(State([], None), events, letters).Ok? {
      RunLevel(events, letters);
    }
    hide Run, FailsAt, Level, Roots;
  }

  // ---------- names ----------

  lemma {:induction false} SplitAt(s: string, i: nat)
    requires i <= |s| && ':' !in s[..i] && (i < |s| ==> s[i] == ':')
    ensures SplitColon(s) == if i == |s| then [s] else [s[..i]] + SplitColon(s[i + 1..])
  {
    if s == "" || i == 0 {
      assert s[..0] == "";
    } else {
      var rest := SplitColon(s[1..]);
      assert s[0] == s[..i][0] && s[1..][..i - 1] == s[..i][1..];
      assert SplitColon(s) == [[s[0]] + rest[0]] + rest[1..];
      SplitAt(s[1..], i - 1);
      hide SplitColon;
      assert [s[0]] + s[1..] == s && [s[0]] + s[1..][..i - 1] == s[..i];
      if i < |s| {
        assert s[1..][i..] == s[i + 1..];
        assert rest[1..] == SplitColon(s[i + 1..]);
      } else {
        assert rest == [s[1..]] && rest[1..] == [];
      }
    }
  }

  lemma {:induction false} PartHasNoColon(part: string, letters: Letters)
    requires ValidNamePart(part, letters)
    ensures ':' !in part
  {
    assert forall i :: 0 <= i < |part| ==> part[i] != ':';
  }

  /** A name is one part, or two with a colon between them. */
  lemma {:induction false} NamesHaveOneColon(name: string, letters: Letters)
    ensures ValidName(name, letters) <==>
            ValidNamePart(name, letters) ||
            exists i :: 0 <= i < |name| && name[i] == ':' && ValidNamePart(name[..i], letters) && ValidNamePart(name[i + 1..], letters)
  {
    hide ValidNamePart, SplitColon;
    if ValidNamePart(name, letters) {
      PartHasNoColon(name, letters);
      assert name[..|name|] == name;
      SplitAt(name, |name|);
    }
    if i :| 0 <= i < |name| && name[i] == ':' && ValidNamePart(name[..i], letters) && ValidNamePart(name[i + 1..], letters) {
      PartHasNoColon(name[..i], letters);
      PartHasNoColon(name[i + 1..], letters);
      var rest := name[i + 1..];
      assert rest[..|rest|] == rest;
      SplitAt(name, i);
      SplitAt(rest, |rest|);
    }
    if ValidName(name, letters) {
      FewParts(name, letters);
    }
  }

  lemma {:induction false} FewParts(name: string, letters: Letters)
    requires |SplitColon(name)| <= 2 && forall i :: 0 <= i < |SplitColon(name)| ==> ValidNamePart(SplitColon(name)[i], letters)
    ensures ValidNamePart(name, letters) ||
            exists i :: 0 <= i < |name| && name[i] == ':' && ValidNamePart(name[..i], letters) && ValidNamePart(name[i + 1..], letters)
  {
    hide ValidNamePart, SplitColon;
    var i := FirstColon(name);
    SplitAt(name, i);
    if i < |name| {
      var rest := name[i + 1..];
      var j := FirstColon(rest);
      SplitAt(rest, j);
      assert SplitColon(name)[0] == name[..i] && SplitColon(name)[1] == rest;
    } else {
      assert SplitColon(name)[0] == name;
    }
  }

  lemma {:induction false} FirstColon(s: string) returns (i: nat)
    ensures i <= |s| && ':' !in s[..i] && (i < |s| ==> s[i] == ':')
  {
    i := 0;
    if s != "" && s[0] != ':' {
      i := FirstColon(s[1..]);
      assert s[..i + 1] == [s[0]] + s[1..][..i];
      i := i + 1;
    }
  }
}
