/** What a document looks like after it was written as XML and read back. */
module XmlRoundTrip {
  import opened Json
  import opened Pointer
  import opened XmlText
  import opened OrderedJson
  import opened Format

  // ---------- the canonical form ----------

  /** The text of a scalar. */
  function ValueText(v: Value): string {
    match ScalarText(v)
    case Ok(text) => text
    case Err(_) => ""
  }

  /** Text as it comes back: line ends normalized and white space trimmed. */
  function SettledText(text: string): Value {
    if ProjectText(text) == "" then Null else Str(ProjectText(text))
  }

  /** The values of the elements a member value becomes: one for each item of an array. */
  function CanonItems(v: Value): seq<Value>
    decreases v, 1
  {
    match v
    case Arr(items) => CanonAll(items)
    case _ => [CanonElement(v)]
  }

  function CanonAll(items: seq<Value>): seq<Value>
    decreases items, 2
  {
    if items == [] then [] else CanonItems(items[0]) + CanonAll(items[1..])
  }

  /** Several elements of one name become an array again, one becomes its value. */
  function Collapse(values: seq<Value>): Value
    requires values != []
  {
    if |values| == 1 then values[0] else Arr(values)
  }

  function CanonAttributes(m: map<string, Value>): map<string, Value> {
    map k | k in m && IsAttributeKey(k) :: Str(AttributeText(ValueText(m[k])))
  }

  function CanonChildren(m: map<string, Value>): map<string, Value>
    decreases m, 3
  {
    map k | k in m && IsChildKey(k) && CanonItems(m[k]) != [] :: Collapse(CanonItems(m[k]))
  }

  function CanonText(m: map<string, Value>): string {
    if "#text" in m then ProjectText(ValueText(m["#text"])) else ""
  }

  /** The value of one element. */
  function CanonElement(v: Value): Value
    decreases v, 0
  {
    match v
    case Obj(m) =>
      var attributes, text := CanonAttributes(m), CanonText(m);
      var children := map k | k in m && IsChildKey(k) && CanonItems(m[k]) != [] :: Collapse(CanonItems(m[k]));
      if attributes == map[] && children == map[] then (if text == "" then Null else Str(text))
      else Obj(attributes + children + if text == "" then map[] else map["#text" := Str(text)])
    case Arr(_) => Null
    case _ => SettledText(ValueText(v))
  }

  /** The canonical form of a document with one root. */
  function CanonDocument(root: string, v: Value): Value {
    Obj(map[root := CanonElement(v)])
  }

  // ---------- readings of written events ----------

  predicate XmlBlank(s: string) {
    forall i :: 0 <= i < |s| ==> s[i] == ' ' || s[i] == '\t' || s[i] == '\n' || s[i] == '\r'
  }

  /** Events that only carry text. */
  predicate Textual(e: Event) {
    e.Text? || e.Other? || (e.Reference? && e.resolved.Some?)
  }

  predicate AllTextual(es: seq<Event>) {
    forall i :: 0 <= i < |es| ==> Textual(es[i])
  }

  function TextIn(e: Event): string {
    match e
    case Text(text) => LineEnds(text)
    case Reference(Some(text)) => text
    case _ => ""
  }

  /** The text that a run of textual events adds up to. */
  function Decoded(es: seq<Event>): string {
    if es == [] then "" else TextIn(es[0]) + Decoded(es[1..])
  }

  /** Indentation, comments and the like. */
  predicate Noise(es: seq<Event>) {
    AllTextual(es) && XmlBlank(Decoded(es))
  }

  /** What the tokenizer may deliver for one written event: noise before it, and text cut at its references. */
  ghost predicate ChunkOf(w: Event, chunk: seq<Event>) {
    if w.Text? then
      AllTextual(chunk) && exists blank :: XmlBlank(blank) && Decoded(chunk) == blank + LineEnds(w.text)
    else chunk != [] && chunk[|chunk| - 1] == w && Noise(chunk[..|chunk| - 1])
  }

  ghost predicate Reads(written: seq<Event>, chunks: seq<seq<Event>>) {
    |chunks| == |written| && forall i :: 0 <= i < |written| ==> ChunkOf(written[i], chunks[i])
  }

  function Flatten(chunks: seq<seq<Event>>): seq<Event> {
    if chunks == [] then [] else chunks[0] + Flatten(chunks[1..])
  }

  lemma {:induction false} FlattenConcat(a: seq<seq<Event>>, b: seq<seq<Event>>)
    ensures Flatten(a + b) == Flatten(a) + Flatten(b)
  {
    if a == [] {
      assert a + b == b;
    } else {
      assert (a + b)[1..] == a[1..] + b;
      FlattenConcat(a[1..], b);
    }
  }

  lemma {:induction false} ReadsSplit(a: seq<Event>, b: seq<Event>, chunks: seq<seq<Event>>)
    requires Reads(a + b, chunks)
    ensures |chunks| == |a| + |b| && Reads(a, chunks[..|a|]) && Reads(b, chunks[|a|..])
    ensures Flatten(chunks) == Flatten(chunks[..|a|]) + Flatten(chunks[|a|..])
  {
    hide ChunkOf;
    assert chunks == chunks[..|a|] + chunks[|a|..];
    FlattenConcat(chunks[..|a|], chunks[|a|..]);
    forall i | 0 <= i < |a|
      ensures ChunkOf(a[i], chunks[..|a|][i])
    {
      assert (a + b)[i] == a[i];
    }
    forall i | 0 <= i < |b|
      ensures ChunkOf(b[i], chunks[|a|..][i])
    {
      assert (a + b)[|a| + i] == b[i];
    }
  }

  lemma {:induction false} RunConcat(s: State, a: seq<Event>, b: seq<Event>, letters: Letters)
    ensures Run(s, a + b, letters)
         == match Run(s, a, letters)
            case Ok(next) => Run(next, b, letters)
            case Err(e) => Err(e)
    decreases |a|
  {
    hide Step;
    if a == [] {
      assert a + b == b;
    } else {
      assert (a + b)[0] == a[0] && (a + b)[1..] == a[1..] + b;
      match Step(s, a[0], letters)
      case Ok(next) => RunConcat(next, a[1..], b, letters);
      case Err(_) =>
    }
  }

  lemma {:induction false} BlankFacts(s: string)
    requires XmlBlank(s)
    ensures Blank(s) && ValidText(s)
  {
  }

  /** The state after blank or other text in the innermost element, if there is one. */
  function WithText(s: State, text: string): State {
    if s.stack == [] then s else PushText(s, text)
  }

  lemma {:induction false} WithTextTwice(s: State, a: string, b: string)
    ensures WithText(WithText(s, a), b) == WithText(s, a + b)
    ensures WithText(s, "") == s
  {
    if s.stack != [] {
      var top := s.stack[|s.stack| - 1];
      assert top.text + "" == top.text;
      assert s.stack[..|s.stack| - 1] + [top] == s.stack;
      assert top.text + a + b == top.text + (a + b);
      assert PushText(s, a).stack[..|s.stack| - 1] == s.stack[..|s.stack| - 1];
    }
  }

  lemma {:induction false} ValidParts(a: string, b: string)
    requires ValidText(a + b)
    ensures ValidText(a) && ValidText(b)
  {
    assert forall i :: 0 <= i < |a| ==> (a + b)[i] == a[i];
    assert forall i :: 0 <= i < |b| ==> (a + b)[|a| + i] == b[i];
  }

  /** Textual events add their text to the innermost element; outside the root they must be blank. */
  lemma {:induction false} RunTextual(s: State, es: seq<Event>, letters: Letters)
    requires AllTextual(es) && ValidText(Decoded(es))
    requires s.stack == [] ==> Blank(Decoded(es))
    ensures Run(s, es, letters) == Ok(WithText(s, Decoded(es)))
    decreases |es|
  {
    hide Trim, LineEnds;
    if es == [] {
      WithTextTwice(s, "", "");
    } else {
      var first, rest := TextIn(es[0]), Decoded(es[1..]);
      ValidParts(first, rest);
      if s.stack == [] {
        assert forall i :: 0 <= i < |first| ==> (first + rest)[i] == first[i];
        assert forall i :: 0 <= i < |rest| ==> (first + rest)[|first| + i] == rest[i];
        TrimBlank(first);
      }
      WithTextTwice(s, first, rest);
      assert Step(s, es[0], letters) == Ok(WithText(s, first));
      RunTextual(WithText(s, first), es[1..], letters);
    }
  }

  /** The noise before a written event. */
  lemma {:induction false} RunChunk(s: State, w: Event, chunk: seq<Event>, letters: Letters) returns (blank: string)
    requires !w.Text? && ChunkOf(w, chunk)
    ensures Blank(blank) && ValidText(blank)
    ensures Run(s, chunk, letters) == Step(WithText(s, blank), w, letters)
  {
    hide Step;
    var noise := chunk[..|chunk| - 1];
    blank := Decoded(noise);
    BlankFacts(blank);
    assert chunk == noise + [w];
    RunTextual(s, noise, letters);
    RunConcat(s, noise, [w], letters);
    RunOne(WithText(s, blank), w, letters);
  }

  lemma {:induction false} RunOne(s: State, w: Event, letters: Letters)
    ensures Run(s, [w], letters) == Step(s, w, letters)
  {
    hide Step;
    assert [w][1..] == [];
  }

  // ---------- children of a frame ----------

  function Named(name: string, values: seq<Value>): seq<Child> {
    if values == [] then [] else [Child(name, values[0])] + Named(name, values[1..])
  }

  lemma {:induction false} NamedConcat(name: string, a: seq<Value>, b: seq<Value>)
    ensures Named(name, a + b) == Named(name, a) + Named(name, b)
  {
    if a == [] {
      assert a + b == b;
    } else {
      assert (a + b)[1..] == a[1..] + b;
      NamedConcat(name, a[1..], b);
    }
  }

  /** The children the members of an object become, in member order. */
  function ChildrenOf(ms: seq<Member>): seq<Child> {
    if ms == [] then []
    else (if IsChildKey(ms[0].name) then Named(ms[0].name, CanonItems(Erase(ms[0].node))) else []) + ChildrenOf(ms[1..])
  }

  lemma {:induction false} AddConcat(o: map<string, Value>, a: seq<Child>, b: seq<Child>)
    ensures AddChildren(o, a + b) == AddChildren(AddChildren(o, a), b)
  {
    if b == [] {
      assert a + b == a;
    } else {
      assert (a + b)[..|a + b| - 1] == a + b[..|b| - 1];
      AddConcat(o, a, b[..|b| - 1]);
    }
  }

  lemma {:induction false} CanonItemsPlain(v: Value)
    ensures forall i :: 0 <= i < |CanonItems(v)| ==> !CanonItems(v)[i].Arr?
    decreases v, 1
  {
    if v.Arr? {
      CanonAllPlain(v.items);
    }
  }

  lemma {:induction false} CanonAllPlain(items: seq<Value>)
    ensures forall i :: 0 <= i < |CanonAll(items)| ==> !CanonAll(items)[i].Arr?
    decreases items, 2
  {
    if items != [] {
      CanonItemsPlain(items[0]);
      CanonAllPlain(items[1..]);
    }
  }

  /** Repeated children of one new name collapse to one member. */
  lemma {:induction false} AddNamed(o: map<string, Value>, name: string, values: seq<Value>)
    requires name !in o && forall i :: 0 <= i < |values| ==> !values[i].Arr?
    ensures AddChildren(o, Named(name, values)) == if values == [] then o else o[name := Collapse(values)]
  {
    hide Collapse, AddChild, AddChildren;
    if values == [] {
      AddNone(o);
    } else {
      var init, last := values[..|values| - 1], values[|values| - 1];
      assert values == init + [last];
      NamedConcat(name, init, [last]);
      assert Named(name, [last]) == [Child(name, last)] by {
        assert [last][1..] == [];
      }
      AddConcat(o, Named(name, init), [Child(name, last)]);
      AddNamed(o, name, init);
      AddSingle(AddChildren(o, Named(name, init)), Child(name, last));
      AddOneMore(o, name, init, last);
    }
  }

  lemma {:induction false} AddNone(o: map<string, Value>)
    ensures AddChildren(o, []) == o
  {
  }

  lemma {:induction false} AddOneMore(o: map<string, Value>, name: string, init: seq<Value>, last: Value)
    requires name !in o && forall i :: 0 <= i < |init| ==> !init[i].Arr?
    ensures AddChild(if init == [] then o else o[name := Collapse(init)], Child(name, last))
         == o[name := Collapse(init + [last])]
  {
    if |init| == 1 {
      assert init == [init[0]];
      assert !init[0].Arr?;
      assert init + [last] == [init[0], last];
    }
  }

  lemma {:induction false} AddSingle(o: map<string, Value>, child: Child)
    ensures AddChildren(o, [child]) == AddChild(o, child)
  {
    assert [child][..0] == [];
  }

  /** The children of an object in member order, as the frame collects them. */
  function ChildMap(ms: seq<Member>): map<string, Value> {
    if ms == [] then map[]
    else
      var values := CanonItems(Erase(ms[0].node));
      (if IsChildKey(ms[0].name) && values != [] then map[ms[0].name := Collapse(values)] else map[]) + ChildMap(ms[1..])
  }

  lemma {:induction false} ChildMapNames(ms: seq<Member>)
    ensures forall k :: k in ChildMap(ms) ==> IsChildKey(k) && exists i :: 0 <= i < |ms| && ms[i].name == k
  {
    if ms != [] {
      ChildMapNames(ms[1..]);
      forall k | k in ChildMap(ms)
        ensures IsChildKey(k) && exists i :: 0 <= i < |ms| && ms[i].name == k
      {
        if k in ChildMap(ms[1..]) {
          var i :| 0 <= i < |ms[1..]| && ms[1..][i].name == k;
          assert ms[i + 1].name == k;
        } else {
          assert ms[0].name == k;
        }
      }
    }
  }

  lemma {:induction false} AddMembers(o: map<string, Value>, ms: seq<Member>)
    requires DistinctNames(ms)
    requires forall i :: 0 <= i < |ms| && IsChildKey(ms[i].name) ==> ms[i].name !in o
    ensures AddChildren(o, ChildrenOf(ms)) == o + ChildMap(ms)
    decreases |ms|
  {
    hide Collapse, AddChildren, CanonItems, Erase, IsChildKey;
    if ms == [] {
      AddNone(o);
    } else {
      var name, values := ms[0].name, CanonItems(Erase(ms[0].node));
      var first := if IsChildKey(name) then Named(name, values) else [];
      AddConcat(o, first, ChildrenOf(ms[1..]));
      var next := AddChildren(o, first);
      if IsChildKey(name) {
        CanonItemsPlain(Erase(ms[0].node));
        AddNamed(o, name, values);
      } else {
        AddNone(o);
      }
      forall i | 0 <= i < |ms[1..]| && IsChildKey(ms[1..][i].name)
        ensures ms[1..][i].name !in next
      {
        assert ms[1..][i] == ms[i + 1] && ms[0].name != ms[i + 1].name;
      }
      AddMembers(next, ms[1..]);
      assert o + ChildMap(ms) == next + ChildMap(ms[1..]);
    }
  }

  // ---------- what the writer reads from an object, and its canonical form ----------

  lemma {:induction false} CanonAttributesCons(tail: map<string, Value>, name: string, v: Value)
    requires name !in tail
    ensures name !in CanonAttributes(tail)
    ensures CanonAttributes(tail[name := v])
         == if IsAttributeKey(name) then CanonAttributes(tail)[name := Str(AttributeText(ValueText(v)))]
            else CanonAttributes(tail)
  {
    hide ValueText;
  }

  lemma {:induction false} CanonChildrenCons(tail: map<string, Value>, name: string, v: Value)
    requires name !in tail
    ensures CanonChildren(tail[name := v])
         == if IsChildKey(name) && CanonItems(v) != [] then CanonChildren(tail)[name := Collapse(CanonItems(v))]
            else CanonChildren(tail)
  {
    hide CanonItems, Collapse;
  }

  lemma {:induction false} AttributesCanon(ms: seq<Member>, letters: Letters)
    requires DistinctNames(ms) && Attributes(ms, letters).Ok?
    ensures ValidAttributes(Attributes(ms, letters).value, letters)
    ensures AttributeMap(Attributes(ms, letters).value) == CanonAttributes(EraseMembers(ms))
    decreases |ms|
  {
    hide ValidName, ValidText, ScalarText, CanonAttributes, Erase, AttributeText;
    if ms == [] {
      NoCanonMembers();
    } else {
      FirstIsNew(ms);
      AttributesCanon(ms[1..], letters);
      CanonAttributesCons(EraseMembers(ms[1..]), ms[0].name, Erase(ms[0].node));
      if IsAttributeKey(ms[0].name) {
        var rest := Attributes(ms[1..], letters).value;
        AttributesFirst(ms, rest, letters);
        AttributeMapCons(Attributes(ms, letters).value[0], rest);
        AttributeNode(ms[0].node);
        var m, cell := CanonAttributes(EraseMembers(ms[1..])), Str(AttributeText(ValueText(Erase(ms[0].node))));
        assert map[ms[0].name := cell] + m == m[ms[0].name := cell];
      }
    }
  }

  lemma {:induction false} NoCanonMembers()
    ensures CanonAttributes(map[]) == map[] && CanonChildren(map[]) == map[]
  {
  }

  lemma {:induction false} AttributeNode(n: Node)
    requires NodeText(n).Ok?
    ensures NodeText(n).value == ValueText(Erase(n))
  {
  }

  lemma {:induction false} AttributesFirst(ms: seq<Member>, rest: seq<Attribute>, letters: Letters)
    requires ms != [] && IsAttributeKey(ms[0].name) && Attributes(ms, letters).Ok?
    requires Attributes(ms[1..], letters) == Ok(rest) && ValidAttributes(rest, letters)
    ensures var first := Attribute(ms[0].name[1..], NodeText(ms[0].node).value);
      NodeText(ms[0].node).Ok? && Attributes(ms, letters) == Ok([first] + rest) && "@" + first.name == ms[0].name
      && ValidAttributes([first] + rest, letters)
  {
    ValidAttributeText(NodeText(ms[0].node).value);
    hide ValidName, ValidText, ScalarText, AttributeText;
  }

  lemma {:induction false} ValidAttributeText(s: string)
    requires ValidText(s)
    ensures ValidText(AttributeText(s))
  {
    hide LineEnds;
    ValidLineEnds(s);
  }

  lemma {:induction false} FirstIsNew(ms: seq<Member>)
    requires DistinctNames(ms) && ms != []
    ensures ms[0].name !in EraseMembers(ms[1..]) && DistinctNames(ms[1..])
    ensures EraseMembers(ms) == EraseMembers(ms[1..])[ms[0].name := Erase(ms[0].node)]
  {
    EraseNames(ms[1..]);
    forall i | 0 <= i < |ms[1..]|
      ensures ms[1..][i].name != ms[0].name
    {
      assert ms[1..][i] == ms[i + 1];
    }
  }

  lemma {:induction false} AttributeMapCons(first: Attribute, rest: seq<Attribute>)
    ensures AttributeMap([first] + rest) == map["@" + first.name := Str(AttributeText(first.value))] + AttributeMap(rest)
  {
    var all := [first] + rest;
    if rest == [] {
      assert all[..0] == [];
    } else {
      assert all[..|all| - 1] == [first] + rest[..|rest| - 1];
      AttributeMapCons(first, rest[..|rest| - 1]);
    }
  }

  lemma {:induction false} ChildMapCanon(ms: seq<Member>)
    requires DistinctNames(ms)
    ensures ChildMap(ms) == CanonChildren(EraseMembers(ms))
    ensures ChildrenOf(ms) == [] <==> ChildMap(ms) == map[]
    decreases |ms|
  {
    hide CanonItems, Collapse, CanonChildren, IsChildKey, Erase;
    if ms == [] {
      NoCanonMembers();
    } else {
      ChildMapCanon(ms[1..]);
      FirstIsNew(ms);
      var name, values := ms[0].name, CanonItems(Erase(ms[0].node));
      CanonChildrenCons(EraseMembers(ms[1..]), name, Erase(ms[0].node));
      ChildMapFresh(ms);
      if IsChildKey(name) && values != [] {
        assert name in ChildMap(ms);
        assert Named(name, values) != [];
      } else {
        assert IsChildKey(name) ==> Named(name, values) == [];
      }
    }
  }

  lemma {:induction false} ChildMapFresh(ms: seq<Member>)
    requires ms != [] && DistinctNames(ms)
    ensures ms[0].name !in ChildMap(ms[1..])
    ensures ChildMap(ms) == if IsChildKey(ms[0].name) && CanonItems(Erase(ms[0].node)) != []
      then ChildMap(ms[1..])[ms[0].name := Collapse(CanonItems(Erase(ms[0].node)))] else ChildMap(ms[1..])
  {
    hide CanonItems, Collapse, IsChildKey, Erase;
    ChildMapNames(ms[1..]);
    forall i | 0 <= i < |ms[1..]|
      ensures ms[1..][i].name != ms[0].name
    {
      assert ms[1..][i] == ms[i + 1];
    }
  }

  lemma {:induction false} ObjectTextCanon(ms: seq<Member>)
    requires DistinctNames(ms) && ObjectText(ms).Ok?
    ensures ObjectText(ms).value.None? <==> "#text" !in EraseMembers(ms)
    ensures ObjectText(ms).value.Some? ==> ValidText(ObjectText(ms).value.value)
    ensures ObjectText(ms).value.Some? ==> ObjectText(ms).value.value == ValueText(EraseMembers(ms)["#text"])
    decreases |ms|
  {
    hide ValidText, ScalarText;
    if ms != [] {
      FirstIsNew(ms);
      if ms[0].name != "#text" {
        ObjectTextCanon(ms[1..]);
      }
    }
  }

  lemma {:induction false} ValidLineEnds(s: string)
    requires ValidText(s)
    ensures ValidText(LineEnds(s))
  {
    PairValid(s);
    CharValid(ReplacePair(s, '\r', '\n', '\n'));
  }

  lemma {:induction false} PairValid(s: string)
    requires ValidText(s)
    ensures ValidText(ReplacePair(s, '\r', '\n', '\n'))
  {
    if s == "" {
    } else if |s| >= 2 && s[0] == '\r' && s[1] == '\n' {
      PairValid(s[2..]);
    } else {
      PairValid(s[1..]);
    }
  }

  lemma {:induction false} CharValid(s: string)
    requires ValidText(s)
    ensures ValidText(ReplaceChar(s, '\r', "\n"))
  {
    if s != "" {
      CharValid(s[1..]);
    }
  }

  // ---------- running the machine over a written element ----------

  /** The innermost element after it gained children and text. */
  function Grown(s: State, children: seq<Child>, text: string): State
    requires s.stack != []
  {
    var top := s.stack[|s.stack| - 1];
    s.(stack := s.stack[..|s.stack| - 1] + [top.(children := top.children + children, text := top.text + text)])
  }

  lemma {:induction false} GrownTwice(s: State, a: seq<Child>, v: string, b: seq<Child>, w: string)
    requires s.stack != []
    ensures Grown(Grown(s, a, v), b, w) == Grown(s, a + b, v + w)
    ensures Grown(s, [], "") == s
  {
    var top := s.stack[|s.stack| - 1];
    assert top.children + a + b == top.children + (a + b) && top.text + v + w == top.text + (v + w);
    assert top.children + [] == top.children && top.text + "" == top.text;
    assert s.stack[..|s.stack| - 1] + [top] == s.stack;
    assert Grown(s, a, v).stack[..|s.stack| - 1] == s.stack[..|s.stack| - 1];
  }

  lemma {:induction false} AppendGrows(s: State, child: Child, w: string)
    requires s.stack != []
    ensures AppendValue(WithText(s, w), child) == Ok(Grown(s, [child], w))
  {
    assert PushText(s, w).stack[..|s.stack| - 1] == s.stack[..|s.stack| - 1];
  }

  function Popped(s: State): State
    requires s.stack != []
  {
    s.(stack := s.stack[..|s.stack| - 1])
  }

  function TextEvents(text: Option<string>): seq<Event> {
    match text
    case None => []
    case Some(t) => [Text(t)]
  }

  function OptionText(text: Option<string>): string {
    match text
    case None => ""
    case Some(t) => ProjectText(t)
  }

  /** The optional text and the end of an element: the frame is finished with the text trimmed out of the noise. */
  lemma {:induction false} RunClose(s: State, text: Option<string>, name: string, chunks: seq<seq<Event>>, letters: Letters)
    returns (full: string)
    requires s.stack != [] && Blank(s.stack[|s.stack| - 1].text)
    requires text.Some? ==> ValidText(text.value)
    requires Reads(TextEvents(text) + [End(name)], chunks)
    ensures Trim(full) == OptionText(text)
    ensures Run(s, Flatten(chunks), letters) == AppendValue(Popped(s), Finish(s.stack[|s.stack| - 1].(text := full)))
  {
    hide ChunkOf, Finish, Trim, LineEnds, Blank, ValidText;
    var top := s.stack[|s.stack| - 1];
    var n := |TextEvents(text)|;
    ReadsSplit(TextEvents(text), [End(name)], chunks);
    var texts, ends := chunks[..n], chunks[n..];
    FlattenOne(ends);
    var middle, kept := s, "";
    match text {
      case None =>
        assert Flatten(texts) == [];
        WithTextTwice(s, "", "");
        BlankNothing();
      case Some(t) =>
        FlattenOne(texts);
        kept := RunTextChunk(s, t, texts[0], letters);
        middle := WithText(s, kept);
    }
    RunConcat(s, Flatten(texts), Flatten(ends), letters);
    assert Run(s, Flatten(texts), letters) == Ok(middle);
    assert ChunkOf(End(name), ends[0]);
    var after := RunChunk(middle, End(name), ends[0], letters);
    WithTextTwice(s, kept, after);
    full := top.text + (kept + after);
    TrimmedFull(top.text, kept, after, text);
    assert WithText(s, kept + after).stack[|s.stack| - 1] == top.(text := full);
    assert WithText(s, kept + after).stack[..|s.stack| - 1] == s.stack[..|s.stack| - 1];
  }

  lemma {:induction false} BlankNothing()
    ensures Blank("")
  {
  }

  ghost predicate BlankThen(kept: string, text: string) {
    exists blank :: Blank(blank) && kept == blank + text
  }

  lemma {:induction false} TrimmedFull(before: string, kept: string, after: string, text: Option<string>)
    requires Blank(before) && Blank(after)
    requires match text case None => kept == "" case Some(t) => BlankThen(kept, LineEnds(t))
    ensures Trim(before + (kept + after)) == OptionText(text)
  {
    hide Trim, LineEnds;
    match text
    case None =>
      TrimBlank(before + (kept + after));
    case Some(t) =>
      var blank :| Blank(blank) && kept == blank + LineEnds(t);
      assert before + (kept + after) == (before + blank) + LineEnds(t) + after;
      TrimAround(before + blank, LineEnds(t), after);
  }

  lemma {:induction false} FlattenOne(chunks: seq<seq<Event>>)
    requires |chunks| == 1
    ensures Flatten(chunks) == chunks[0]
  {
    assert chunks[1..] == [];
  }

  lemma {:induction false} RunTextChunk(s: State, t: string, chunk: seq<Event>, letters: Letters) returns (kept: string)
    requires s.stack != [] && ValidText(t) && ChunkOf(Text(t), chunk)
    ensures BlankThen(kept, LineEnds(t))
    ensures Run(s, chunk, letters) == Ok(WithText(s, kept))
  {
    hide LineEnds;
    kept := Decoded(chunk);
    var blank :| XmlBlank(blank) && kept == blank + LineEnds(t);
    BlankFacts(blank);
    ValidLineEnds(t);
    RunTextual(s, chunk, letters);
  }

  /** The frame of an object, finished, is the canonical form of the object. */
  lemma {:induction false} FinishedObject(name: string, ms: seq<Member>, attributes: seq<Attribute>, full: string, letters: Letters)
    requires DistinctNames(ms) && Attributes(ms, letters) == Ok(attributes) && ObjectText(ms).Ok?
    requires Trim(full) == OptionText(ObjectText(ms).value)
    ensures Finish(Frame(name, AttributeMap(attributes), ChildrenOf(ms), full)) == Child(name, CanonElement(Obj(EraseMembers(ms))))
  {
    hide Trim, LineEnds, CanonItems, Collapse, AddChildren, AttributeMap, ChildrenOf, ChildMap, ScalarText, CanonElement,
      CanonAttributes, CanonChildren, IsChildKey, IsAttributeKey;
    AttributesCanon(ms, letters);
    ChildMapCanon(ms);
    ObjectTextCanon(ms);
    var m := EraseMembers(ms);
    AttributeNames(m);
    assert forall i :: 0 <= i < |ms| && IsChildKey(ms[i].name) ==> ms[i].name !in AttributeMap(attributes);
    AddMembers(AttributeMap(attributes), ms);
    CanonObject(m);
    assert Trim(full) == CanonText(m);
  }

  lemma {:induction false} AttributeNames(m: map<string, Value>)
    ensures forall k :: k in CanonAttributes(m) ==> !IsChildKey(k)
  {
  }

  lemma {:induction false} CanonObject(m: map<string, Value>)
    ensures CanonElement(Obj(m))
         == var o, text := CanonAttributes(m) + CanonChildren(m), CanonText(m);
            if CanonAttributes(m) == map[] && CanonChildren(m) == map[] then (if text == "" then Null else Str(text))
            else Obj(if text == "" then o else o["#text" := Str(text)])
  {
    hide CanonItems, Collapse, CanonText;
    var children := map k | k in m && IsChildKey(k) && CanonItems(m[k]) != [] :: Collapse(CanonItems(m[k]));
    assert children == CanonChildren(m);
    var both, text := CanonAttributes(m) + CanonChildren(m), CanonText(m);
    assert both["#text" := Str(text)] == both + map["#text" := Str(text)];
    assert both + map[] == both;
  }

  lemma {:induction false} OnlyAttributes(ms: seq<Member>)
    requires HasOnlyAttributes(ms)
    ensures ObjectText(ms) == Ok(None) && ChildrenOf(ms) == []
    decreases |ms|
  {
    if ms != [] {
      assert IsAttributeKey(ms[0].name);
      OnlyAttributes(ms[1..]);
    }
  }

  /** The state inside a newly opened element. */
  function Opened(s: State, name: string, attributes: seq<Attribute>): State {
    s.(stack := s.stack + [Frame(name, AttributeMap(attributes), [], "")])
  }

  lemma {:induction false} PoppedOpened(s: State, name: string, attributes: seq<Attribute>)
    ensures Popped(Opened(s, name, attributes)) == s
    ensures forall children, text :: Popped(Grown(Opened(s, name, attributes), children, text)) == s
  {
    assert Opened(s, name, attributes).stack[..|s.stack|] == s.stack;
  }

  lemma {:induction false} RunEmpty(name: string, attributes: seq<Attribute>, chunks: seq<seq<Event>>, s: State, letters: Letters)
    returns (blank: string)
    requires ValidName(name, letters) && ValidAttributes(attributes, letters) && Reads([Empty(name, attributes)], chunks)
    ensures Blank(blank)
    ensures Run(s, Flatten(chunks), letters)
         == AppendValue(WithText(s, blank), Finish(Frame(name, AttributeMap(attributes), [], "")))
  {
    hide Finish;
    FlattenOne(chunks);
    assert ChunkOf(Empty(name, attributes), chunks[0]);
    blank := RunChunk(s, Empty(name, attributes), chunks[0], letters);
  }

  /** The start of an element: noise goes outside, and a new frame is opened. */
  lemma {:induction false} RunOpen(name: string, attributes: seq<Attribute>, after: seq<Event>, chunks: seq<seq<Event>>,
                                   s: State, letters: Letters)
    returns (blank: string, rest: seq<seq<Event>>)
    requires ValidName(name, letters) && ValidAttributes(attributes, letters)
    requires Reads([Start(name, attributes)] + after, chunks)
    ensures Blank(blank) && Reads(after, rest)
    ensures Run(s, Flatten(chunks), letters) == Run(Opened(WithText(s, blank), name, attributes), Flatten(rest), letters)
  {
    hide ChunkOf, AttributeMap, Blank, ValidText;
    ReadsSplit([Start(name, attributes)], after, chunks);
    rest := chunks[1..];
    FlattenOne(chunks[..1]);
    assert ChunkOf(Start(name, attributes), chunks[..1][0]);
    blank := RunChunk(s, Start(name, attributes), chunks[..1][0], letters);
    RunConcat(s, Flatten(chunks[..1]), Flatten(rest), letters);
  }

  lemma {:induction false} FinishedScalar(name: string, v: Value, text: string, full: string)
    requires !v.Obj? && !v.Arr? && ScalarText(v) == Ok(text) && Trim(full) == OptionText(Some(text))
    ensures Finish(Frame(name, map[], [], full)) == Child(name, CanonElement(v))
  {
    hide Trim, LineEnds;
  }

  lemma {:induction false} RunScalar(name: string, v: Value, chunks: seq<seq<Event>>, s: State, letters: Letters)
    returns (blank: string)
    requires !v.Obj? && !v.Arr? && Written(name, Scalar(v), letters).Ok?
    requires Reads(Written(name, Scalar(v), letters).value, chunks)
    ensures Blank(blank)
    ensures Run(s, Flatten(chunks), letters) == AppendValue(WithText(s, blank), Child(name, CanonElement(v)))
  {
    hide ValidName, ValidText, LineEnds;
    if v.Null? {
      blank := RunEmpty(name, [], chunks, s, letters);
      assert Trim("") == "";
      BlankLine();
    } else {
      var text := ScalarText(v).value;
      var after := TextEvents(Some(text)) + [End(name)];
      assert [Start(name, []), Text(text), End(name)] == [Start(name, [])] + after;
      var rest;
      blank, rest := RunOpen(name, [], after, chunks, s, letters);
      var inner := Opened(WithText(s, blank), name, []);
      BlankNothing();
      var full := RunClose(inner, Some(text), name, rest, letters);
      PoppedOpened(WithText(s, blank), name, []);
      FinishedScalar(name, v, text, full);
    }
  }

  lemma {:induction false} BlankLine()
    ensures ProjectText("") == ""
  {
    ProjectTextSettles("");
  }

  /** Every reading of a written element that is not an array runs to the element's canonical form, delivered to
      the place where the element ends; the noise before it goes to the enclosing element. */
  lemma {:induction false} RunSingle(name: string, n: Node, chunks: seq<seq<Event>>, s: State, letters: Letters)
    returns (blank: string)
    requires Valid(n) && !n.Items? && Written(name, n, letters).Ok? && Reads(Written(name, n, letters).value, chunks)
    ensures Blank(blank)
    ensures Run(s, Flatten(chunks), letters) == AppendValue(WithText(s, blank), Child(name, CanonElement(Erase(n))))
    decreases n, 0
  {
    hide CanonElement, ValidName, ValidText, WithText, Blank, Trim, LineEnds, Reads, Finish, ValidAttributes, HasOnlyAttributes,
      ChildrenOf, ScalarText, CanonAttributes, AttributeMap;
    if n.Scalar? {
      blank := RunScalar(name, n.scalar, chunks, s, letters);
      return;
    }
    var ms := n.members;
    var attributes := Attributes(ms, letters).value;
    AttributesCanon(ms, letters);
    if HasOnlyAttributes(ms) {
      blank := RunEmpty(name, attributes, chunks, s, letters);
      OnlyAttributes(ms);
      BlankNothing();
      TrimBlank("");
      FinishedObject(name, ms, attributes, "", letters);
      return;
    }
    var inside, text := WrittenMembers(ms, letters).value, ObjectText(ms).value;
    var tail := TextEvents(text) + [End(name)];
    ObjectEvents(name, ms, letters);
    var rest;
    blank, rest := RunOpen(name, attributes, inside + tail, chunks, s, letters);
    var inner := Opened(WithText(s, blank), name, attributes);
    ReadsSplit(inside, tail, rest);
    var indent := RunMembers(ms, rest[..|inside|], inner, letters);
    var grown := Grown(inner, ChildrenOf(ms), indent);
    RunConcat(inner, Flatten(rest[..|inside|]), Flatten(rest[|inside|..]), letters);
    ObjectTextCanon(ms);
    GrownTop(WithText(s, blank), name, attributes, ChildrenOf(ms), indent);
    var full := RunClose(grown, text, name, rest[|inside|..], letters);
    PoppedOpened(WithText(s, blank), name, attributes);
    FinishedObject(name, ms, attributes, full, letters);
  }

  lemma {:induction false} ObjectEvents(name: string, ms: seq<Member>, letters: Letters)
    requires Written(name, Members(ms), letters).Ok? && !HasOnlyAttributes(ms)
    ensures WrittenMembers(ms, letters).Ok? && ObjectText(ms).Ok? && Attributes(ms, letters).Ok? && ValidName(name, letters)
    ensures Written(name, Members(ms), letters).value
         == [Start(name, Attributes(ms, letters).value)]
            + (WrittenMembers(ms, letters).value + (TextEvents(ObjectText(ms).value) + [End(name)]))
  {
    hide ValidName, HasOnlyAttributes;
  }

  lemma {:induction false} GrownTop(s: State, name: string, attributes: seq<Attribute>, children: seq<Child>, text: string)
    ensures var grown := Grown(Opened(s, name, attributes), children, text);
      grown.stack != [] && grown.stack[|grown.stack| - 1] == Frame(name, AttributeMap(attributes), children, text)
  {
    assert [] + children == children && "" + text == text;
  }

  /** The elements of a member value, inside an open element. */
  lemma {:induction false} RunElement(name: string, n: Node, chunks: seq<seq<Event>>, s: State, letters: Letters)
    returns (blank: string)
    requires Valid(n) && s.stack != [] && Written(name, n, letters).Ok? && Reads(Written(name, n, letters).value, chunks)
    ensures Blank(blank)
    ensures Run(s, Flatten(chunks), letters) == Ok(Grown(s, Named(name, CanonItems(Erase(n))), blank))
    decreases n, 1
  {
    if n.Items? {
      blank := RunItems(name, n.items, chunks, s, letters);
      EraseItems(n.items);
    } else {
      blank := RunSingle(name, n, chunks, s, letters);
      var child := CanonElement(Erase(n));
      AppendGrows(s, Child(name, child), blank);
      assert CanonItems(Erase(n)) == [child];
      assert [child][1..] == [];
      assert Named(name, [child]) == [Child(name, child)];
    }
  }

  function EraseAll(items: seq<Node>): seq<Value> {
    if items == [] then [] else [Erase(items[0])] + EraseAll(items[1..])
  }

  lemma {:induction false} EraseAllAt(items: seq<Node>)
    ensures |EraseAll(items)| == |items| && forall i :: 0 <= i < |items| ==> EraseAll(items)[i] == Erase(items[i])
  {
    if items != [] {
      EraseAllAt(items[1..]);
    }
  }

  lemma {:induction false} EraseItems(items: seq<Node>)
    ensures Erase(Items(items)) == Arr(EraseAll(items))
  {
    EraseAllAt(items);
  }

  lemma {:induction false} RunItems(name: string, items: seq<Node>, chunks: seq<seq<Event>>, s: State, letters: Letters)
    returns (blank: string)
    requires forall i :: 0 <= i < |items| ==> Valid(items[i])
    requires s.stack != [] && WrittenItems(name, items, letters).Ok? && Reads(WrittenItems(name, items, letters).value, chunks)
    ensures Blank(blank)
    ensures Run(s, Flatten(chunks), letters) == Ok(Grown(s, Named(name, CanonAll(EraseAll(items))), blank))
    decreases items, 2
  {
    hide CanonItems, Written;
    if items == [] {
      blank := "";
      GrownTwice(s, [], "", [], "");
    } else {
      var first, rest := Written(name, items[0], letters).value, WrittenItems(name, items[1..], letters).value;
      ReadsSplit(first, rest, chunks);
      var b1 := RunElement(name, items[0], chunks[..|first|], s, letters);
      var values := CanonItems(Erase(items[0]));
      var s1 := Grown(s, Named(name, values), b1);
      var b2 := RunItems(name, items[1..], chunks[|first|..], s1, letters);
      var others := CanonAll(EraseAll(items[1..]));
      RunConcat(s, Flatten(chunks[..|first|]), Flatten(chunks[|first|..]), letters);
      GrownTwice(s, Named(name, values), b1, Named(name, others), b2);
      NamedConcat(name, values, others);
      blank := b1 + b2;
    }
  }

  lemma {:induction false} RunMembers(ms: seq<Member>, chunks: seq<seq<Event>>, s: State, letters: Letters)
    returns (blank: string)
    requires forall i :: 0 <= i < |ms| ==> Valid(ms[i].node)
    requires s.stack != [] && WrittenMembers(ms, letters).Ok? && Reads(WrittenMembers(ms, letters).value, chunks)
    ensures Blank(blank)
    ensures Run(s, Flatten(chunks), letters) == Ok(Grown(s, ChildrenOf(ms), blank))
    decreases ms, 2
  {
    hide CanonItems, Written, IsChildKey;
    if ms == [] {
      blank := "";
      GrownTwice(s, [], "", [], "");
    } else if !IsChildKey(ms[0].name) {
      blank := RunMembers(ms[1..], chunks, s, letters);
      assert [] + ChildrenOf(ms[1..]) == ChildrenOf(ms[1..]);
    } else {
      var name, n := ms[0].name, ms[0].node;
      var first, rest := Written(name, n, letters).value, WrittenMembers(ms[1..], letters).value;
      ReadsSplit(first, rest, chunks);
      var b1 := RunElement(name, n, chunks[..|first|], s, letters);
      var children := Named(name, CanonItems(Erase(n)));
      var s1 := Grown(s, children, b1);
      var b2 := RunMembers(ms[1..], chunks[|first|..], s1, letters);
      RunConcat(s, Flatten(chunks[..|first|]), Flatten(chunks[|first|..]), letters);
      GrownTwice(s, children, b1, ChildrenOf(ms[1..]), b2);
      blank := b1 + b2;
    }
  }

  // ---------- the round trip ----------

  /** Writing a document with one root that is not an array, and reading the events back in any way a tokenizer
      may deliver them, gives the canonical form of the document. */
  lemma {:induction false} ReadBack(root: string, n: Node, chunks: seq<seq<Event>>, tail: seq<Event>, letters: Letters)
    requires Valid(n) && !n.Items? && Written(root, n, letters).Ok? && Reads(Written(root, n, letters).value, chunks)
    requires Noise(tail)
    ensures Parsed(Flatten(chunks) + tail, letters) == Ok(CanonDocument(root, Erase(n)))
  {
    hide CanonElement, Erase, Written;
    var start := State([], None);
    var blank := RunSingle(root, n, chunks, start, letters);
    var done := State([], Some(Child(root, CanonElement(Erase(n)))));
    assert Run(start, Flatten(chunks), letters) == Ok(done);
    BlankFacts(Decoded(tail));
    RunTextual(done, tail, letters);
    RunConcat(start, Flatten(chunks), tail, letters);
  }

  // ---------- arrays at the root ----------

  /** Finished elements delivered one after another outside any element. */
  function Delivered(s: State, children: seq<Child>): Result<State, XmlError>
    decreases |children|
  {
    if children == [] then Ok(s)
    else match AppendValue(s, children[0])
      case Err(e) => Err(e)
      case Ok(next) => Delivered(next, children[1..])
  }

  lemma {:induction false} DeliveredConcat(s: State, a: seq<Child>, b: seq<Child>)
    ensures Delivered(s, a + b)
         == match Delivered(s, a)
            case Ok(next) => Delivered(next, b)
            case Err(e) => Err(e)
    ensures s.stack == [] && Delivered(s, a).Ok? ==> Delivered(s, a).value.stack == []
    decreases |a|
  {
    if a == [] {
      assert a + b == b;
    } else {
      assert (a + b)[0] == a[0] && (a + b)[1..] == a[1..] + b;
      if AppendValue(s, a[0]).Ok? {
        DeliveredConcat(AppendValue(s, a[0]).value, a[1..], b);
      }
    }
  }

  /** The elements of a value written at the root are delivered in order. */
  lemma {:induction false} RunRoot(name: string, n: Node, chunks: seq<seq<Event>>, s: State, letters: Letters)
    requires Valid(n) && s.stack == [] && Written(name, n, letters).Ok? && Reads(Written(name, n, letters).value, chunks)
    ensures Run(s, Flatten(chunks), letters) == Delivered(s, Named(name, CanonItems(Erase(n))))
    decreases n, 1
  {
    if n.Items? {
      RunRootItems(name, n.items, chunks, s, letters);
      EraseItems(n.items);
    } else {
      var blank := RunSingle(name, n, chunks, s, letters);
      var child := CanonElement(Erase(n));
      assert CanonItems(Erase(n)) == [child] && [child][1..] == [];
      assert Named(name, [child]) == [Child(name, child)];
      assert [Child(name, child)][1..] == [];
    }
  }

  lemma {:induction false} RunRootItems(name: string, items: seq<Node>, chunks: seq<seq<Event>>, s: State, letters: Letters)
    requires forall i :: 0 <= i < |items| ==> Valid(items[i])
    requires s.stack == [] && WrittenItems(name, items, letters).Ok?
    requires Reads(WrittenItems(name, items, letters).value, chunks)
    ensures Run(s, Flatten(chunks), letters) == Delivered(s, Named(name, CanonAll(EraseAll(items))))
    decreases items, 2
  {
    hide CanonItems, Written, AppendValue;
    if items != [] {
      var first, rest := Written(name, items[0], letters).value, WrittenItems(name, items[1..], letters).value;
      ReadsSplit(first, rest, chunks);
      RunRoot(name, items[0], chunks[..|first|], s, letters);
      var values, others := CanonItems(Erase(items[0])), CanonAll(EraseAll(items[1..]));
      RunConcat(s, Flatten(chunks[..|first|]), Flatten(chunks[|first|..]), letters);
      NamedConcat(name, values, others);
      DeliveredConcat(s, Named(name, values), Named(name, others));
      if Delivered(s, Named(name, values)).Ok? {
        RunRootItems(name, items[1..], chunks[|first|..], Delivered(s, Named(name, values)).value, letters);
      }
    }
  }

  lemma {:induction false} DeliveredRoots(name: string, values: seq<Value>)
    ensures Delivered(State([], None), Named(name, values))
         == if values == [] then Ok(State([], None))
            else if |values| == 1 then Ok(State([], Some(Child(name, values[0]))))
            else Err(MultipleRoots)
  {
    if |values| == 1 {
      assert values == [values[0]];
    } else if |values| > 1 {
      assert Named(name, values)[1..] == Named(name, values[1..]);
    }
  }

  /** A written root is read back as a document exactly when it became one element. An array may become several,
      or none. */
  lemma {:induction false} RootReadsBackIff(root: string, n: Node, chunks: seq<seq<Event>>, tail: seq<Event>, letters: Letters)
    requires Valid(n) && Written(root, n, letters).Ok? && Reads(Written(root, n, letters).value, chunks) && Noise(tail)
    ensures var read, values := Parsed(Flatten(chunks) + tail, letters), CanonItems(Erase(n));
      && (read.Ok? <==> |values| == 1)
      && (|values| == 1 ==> read == Ok(Obj(map[root := values[0]])))
      && (|values| > 1 ==> read == Err(MultipleRoots))
      && (|values| == 0 ==> read == Err(MissingRoot))
  {
    hide CanonItems, Erase, Written, Delivered, Reads;
    var start, values := State([], None), CanonItems(Erase(n));
    RunRoot(root, n, chunks, start, letters);
    DeliveredRoots(root, values);
    RunConcat(start, Flatten(chunks), tail, letters);
    BlankFacts(Decoded(tail));
    if |values| == 0 {
      RunTextual(start, tail, letters);
    } else if |values| == 1 {
      RunTextual(State([], Some(Child(root, values[0]))), tail, letters);
    }
  }

  // ---------- the canonical form is stable ----------

  lemma {:induction false} CanonStable(v: Value)
    requires !v.Arr?
    ensures CanonElement(CanonElement(v)) == CanonElement(v)
    decreases v, 0
  {
    if v.Obj? {
      var m := v.members;
      forall k | k in m && IsChildKey(k)
        ensures StableItems(CanonItems(m[k]))
      {
        CanonItemsStable(m[k]);
      }
      ObjectStable(m);
    } else {
      ProjectTextSettles(ValueText(v));
      ProjectTextSettles(ProjectText(ValueText(v)));
      BlankLine();
    }
  }

  /** Values that each come back as themselves. */
  predicate StableItems(values: seq<Value>) {
    forall i :: 0 <= i < |values| ==> CanonItems(values[i]) == [values[i]]
  }

  lemma {:induction false} CanonItemsStable(v: Value)
    ensures StableItems(CanonItems(v))
    decreases v, 1
  {
    CanonItemsPlain(v);
    if v.Arr? {
      CanonAllStable(v.items);
    } else {
      CanonStable(v);
    }
  }

  lemma {:induction false} CanonAllStable(items: seq<Value>)
    ensures StableItems(CanonAll(items))
    decreases items, 2
  {
    if items != [] {
      CanonItemsStable(items[0]);
      CanonAllStable(items[1..]);
    }
  }

  lemma {:induction false} SingleItems(values: seq<Value>)
    requires StableItems(values)
    ensures CanonAll(values) == values
  {
    if values != [] {
      SingleItems(values[1..]);
      assert values == [values[0]] + values[1..];
    }
  }

  lemma {:induction false} CollapseStable(values: seq<Value>)
    requires values != [] && StableItems(values)
    ensures CanonItems(Collapse(values)) == values
  {
    SingleItems(values);
    if |values| == 1 {
      assert values == [values[0]];
    }
  }

  lemma {:induction false} ObjectStable(m: map<string, Value>)
    requires forall k :: k in m && IsChildKey(k) ==> StableItems(CanonItems(m[k]))
    ensures CanonElement(CanonElement(Obj(m))) == CanonElement(Obj(m))
  {
    hide CanonItems, Collapse, CanonElement, Trim, LineEnds, CanonAttributes, CanonChildren, CanonText;
    CanonObject(m);
    var text := CanonText(m);
    var both := CanonAttributes(m) + CanonChildren(m);
    var out := if text == "" then both else both["#text" := Str(text)];
    TextStable(m);
    if CanonAttributes(m) == map[] && CanonChildren(m) == map[] {
      ScalarStable(text);
    } else {
      AttributesStable(m, out, text);
      ChildrenStable(m, out, text);
      OutText(m, out, text);
      CanonObject(out);
    }
  }

  lemma {:induction false} OutText(m: map<string, Value>, out: map<string, Value>, text: string)
    requires text == CanonText(m) && ProjectText(text) == text
    requires out == var both := CanonAttributes(m) + CanonChildren(m); if text == "" then both else both["#text" := Str(text)]
    ensures CanonText(out) == text
  {
    hide Trim, LineEnds, CanonItems, Collapse;
  }

  lemma {:induction false} AttributesStable(m: map<string, Value>, out: map<string, Value>, text: string)
    requires out == var both := CanonAttributes(m) + CanonChildren(m); if text == "" then both else both["#text" := Str(text)]
    ensures CanonAttributes(out) == CanonAttributes(m)
  {
    hide CanonItems, Collapse, AttributeText;
    assert CanonAttributes(out).Keys == CanonAttributes(m).Keys;
    forall k | k in CanonAttributes(m)
      ensures CanonAttributes(out)[k] == CanonAttributes(m)[k]
    {
      AttributeTextSettles(ValueText(m[k]));
      AttributeTextSettles(AttributeText(ValueText(m[k])));
    }
  }

  lemma {:induction false} ChildrenStable(m: map<string, Value>, out: map<string, Value>, text: string)
    requires forall k :: k in m && IsChildKey(k) ==> StableItems(CanonItems(m[k]))
    requires out == var both := CanonAttributes(m) + CanonChildren(m); if text == "" then both else both["#text" := Str(text)]
    ensures CanonChildren(out) == CanonChildren(m)
  {
    hide CanonItems, Collapse, StableItems;
    forall k | k in CanonChildren(m)
      ensures k in out && CanonItems(out[k]) == CanonItems(m[k])
    {
      CollapseStable(CanonItems(m[k]));
    }
    assert forall k :: k in out && IsChildKey(k) ==> k in CanonChildren(m);
    assert CanonChildren(out).Keys == CanonChildren(m).Keys;
  }

  lemma {:induction false} TextStable(m: map<string, Value>)
    ensures ProjectText(CanonText(m)) == CanonText(m)
  {
    ProjectTextSettles("");
    if "#text" in m {
      ProjectTextSettles(ValueText(m["#text"]));
      ProjectTextSettles(CanonText(m));
    }
  }

  lemma {:induction false} ScalarStable(text: string)
    requires ProjectText(text) == text
    ensures CanonElement(if text == "" then Null else Str(text)) == (if text == "" then Null else Str(text))
  {
    ProjectTextSettles("");
  }
}
