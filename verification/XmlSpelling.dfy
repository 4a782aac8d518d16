/** The events of a written element, part by part. */
module XmlSpelling {
  import opened Json
  import opened OrderedJson
  import opened Format
  import opened XmlRoundTrip

  /** The text of a scalar: true, false, a number as it stands, a string, and nothing for null. */
  predicate IsScalarText(v: Value, text: string) {
    match v
    case Null => text == ""
    case Bool(true) => text == "true"
    case Bool(false) => text == "false"
    case Num(number) => text == number
    case Str(s) => text == s
    case _ => false
  }

  /** An attribute for a member whose name starts with "@", nothing for another. */
  ghost predicate IsAttributePart(m: Member, part: seq<Attribute>) {
    if IsAttributeKey(m.name) then
      exists text :: m.node.Scalar? && IsScalarText(m.node.scalar, text) && part == [Attribute(m.name[1..], text)]
    else part == []
  }

  function Gathered(parts: seq<seq<Attribute>>): seq<Attribute> {
    if parts == [] then [] else parts[0] + Gathered(parts[1..])
  }

  ghost predicate AreAttributes(ms: seq<Member>, attributes: seq<Attribute>) {
    exists parts :: |parts| == |ms| && attributes == Gathered(parts) && forall i :: 0 <= i < |ms| ==> IsAttributePart(ms[i], parts[i])
  }

  /** The text of an object comes after its children. */
  ghost predicate IsTextPart(ms: seq<Member>, part: seq<Event>) {
    if k :| 0 <= k < |ms| && ms[k].name == "#text" then
      exists text :: ms[k].node.Scalar? && IsScalarText(ms[k].node.scalar, text) && part == [Text(text)]
    else part == []
  }

  /** The events of a value under a name: one element for each item of an array; for an object its attributes, its
      children in member order and its text; for null an empty element. */
  ghost predicate Spells(name: string, n: Node, events: seq<Event>)
    decreases n, 1
  {
    match n
    case Items(items) =>
      exists parts :: |parts| == |items| && events == Flatten(parts) && forall i :: 0 <= i < |items| ==> Spells(name, items[i], parts[i])
    case Scalar(Null) => events == [Empty(name, [])]
    case Scalar(v) => exists text :: IsScalarText(v, text) && events == [Start(name, []), Text(text), End(name)]
    case Members(ms) =>
      exists attributes :: AreAttributes(ms, attributes) &&
        if forall i :: 0 <= i < |ms| ==> IsAttributeKey(ms[i].name) then events == [Empty(name, attributes)]
        else
          exists parts, text :: |parts| == |ms| && (forall i :: 0 <= i < |ms| ==> IsChildPart(ms[i], parts[i])) && IsTextPart(ms, text)
            && events == [Start(name, attributes)] + Flatten(parts) + text + [End(name)]
  }

  /** A child element for a member that is no attribute and not the text. */
  ghost predicate IsChildPart(m: Member, part: seq<Event>)
    decreases m, 0
  {
    if IsChildKey(m.name) then Spells(m.name, m.node, part) else part == []
  }

  lemma {:induction false} TextIs(v: Value, text: string)
    ensures ScalarText(v) == Ok(text) <==> IsScalarText(v, text)
  {
  }

  lemma {:induction false} AttributesAre(ms: seq<Member>, letters: Letters) returns (parts: seq<seq<Attribute>>)
    requires Attributes(ms, letters).Ok?
    ensures |parts| == |ms| && Attributes(ms, letters).value == Gathered(parts)
    ensures forall i :: 0 <= i < |ms| ==> IsAttributePart(ms[i], parts[i])
    decreases |ms|
  {
    parts := [];
    if ms != [] {
      var rest := AttributesAre(ms[1..], letters);
      var first: seq<Attribute> := [];
      if IsAttributeKey(ms[0].name) {
        var text := NodeText(ms[0].node).value;
        TextIs(ms[0].node.scalar, text);
        first := [Attribute(ms[0].name[1..], text)];
      }
      parts := [first] + rest;
      assert parts[1..] == rest;
      assert first + Gathered(rest) == Attributes(ms, letters).value;
      hide ScalarText, ValidName, ValidText, Attributes, IsScalarText;
      assert forall i :: 0 < i < |ms| ==> ms[i] == ms[1..][i - 1] && parts[i] == rest[i - 1];
    }
  }

  lemma {:induction false} TextPartIs(ms: seq<Member>)
    requires DistinctNames(ms) && WrittenText(ms).Ok?
    ensures IsTextPart(ms, WrittenText(ms).value)
  {
    var k := TextMember(ms);
    if k < |ms| {
      TextIs(ms[k].node.scalar, ScalarText(ms[k].node.scalar).value);
    }
    hide ScalarText, ValidText, ObjectText, IsScalarText;
  }

  lemma {:induction false} TextMember(ms: seq<Member>) returns (k: nat)
    requires WrittenText(ms).Ok?
    ensures k <= |ms| && forall i :: 0 <= i < k ==> ms[i].name != "#text"
    ensures k == |ms| ==> WrittenText(ms) == Ok([])
    ensures k < |ms| ==> ms[k].name == "#text" && ms[k].node.Scalar? && ScalarText(ms[k].node.scalar).Ok?
                         && WrittenText(ms) == Ok([Text(ScalarText(ms[k].node.scalar).value)])
    decreases |ms|
  {
    hide ScalarText, ValidText;
    k := 0;
    if ms != [] && ms[0].name != "#text" {
      k := TextMember(ms[1..]);
      k := k + 1;
      assert forall i :: 0 < i < |ms| ==> ms[i] == ms[1..][i - 1];
    }
  }

  /** Everything the writer writes is spelled this way. */
  lemma {:induction false} WrittenIsSpelled(name: string, n: Node, letters: Letters)
    requires Valid(n) && Written(name, n, letters).Ok?
    ensures Spells(name, n, Written(name, n, letters).value)
    decreases n, 1
  {
    match n
    case Items(items) =>
      var parts := ItemsAreSpelled(name, items, letters);
    case Scalar(v) =>
      if !v.Null? {
        TextIs(v, ScalarText(v).value);
      }
    case Members(ms) => MembersAreSpelled(name, n, letters);
  }

  lemma {:induction false} ItemsAreSpelled(name: string, items: seq<Node>, letters: Letters) returns (parts: seq<seq<Event>>)
    requires WrittenItems(name, items, letters).Ok? && forall i :: 0 <= i < |items| ==> Valid(items[i])
    ensures |parts| == |items| && WrittenItems(name, items, letters).value == Flatten(parts)
    ensures forall i :: 0 <= i < |items| ==> Spells(name, items[i], parts[i])
    decreases items, 2
  {
    parts := [];
    if items != [] {
      WrittenIsSpelled(name, items[0], letters);
      var rest := ItemsAreSpelled(name, items[1..], letters);
      hide Written, Spells, Valid;
      parts := [Written(name, items[0], letters).value] + rest;
      assert parts[1..] == rest;
      assert forall i :: 0 < i < |items| ==> items[i] == items[1..][i - 1] && parts[i] == rest[i - 1];
    }
  }

  lemma {:induction false} MembersAreSpelled(name: string, n: Node, letters: Letters)
    requires n.Members? && Valid(n) && Written(name, n, letters).Ok?
    ensures Spells(name, n, Written(name, n, letters).value)
    decreases n, 0
  {
    var ms := n.members;
    var attributes := AttributesAre(ms, letters);
    var all := Attributes(ms, letters).value;
    assert AreAttributes(ms, all);
    if !HasOnlyAttributes(ms) {
      var parts := ChildrenAreSpelled(ms, letters);
      TextPartIs(ms);
      var text := WrittenText(ms).value;
      hide Attributes, WrittenMembers, WrittenText, AreAttributes, IsChildPart, IsTextPart, Flatten, ValidName;
      assert Written(name, n, letters).value == [Start(name, all)] + Flatten(parts) + text + [End(name)];
    }
  }

  lemma {:induction false} ChildrenAreSpelled(ms: seq<Member>, letters: Letters) returns (parts: seq<seq<Event>>)
    requires WrittenMembers(ms, letters).Ok? && forall i :: 0 <= i < |ms| ==> Valid(ms[i].node)
    ensures |parts| == |ms| && WrittenMembers(ms, letters).value == Flatten(parts)
    ensures forall i :: 0 <= i < |ms| ==> IsChildPart(ms[i], parts[i])
    decreases ms, 2
  {
    parts := [];
    if ms != [] {
      var first: seq<Event> := [];
      if IsChildKey(ms[0].name) {
        WrittenIsSpelled(ms[0].name, ms[0].node, letters);
        first := Written(ms[0].name, ms[0].node, letters).value;
      }
      var rest := ChildrenAreSpelled(ms[1..], letters);
      hide Written, Spells, Valid;
      parts := [first] + rest;
      assert parts[1..] == rest;
      assert first + Flatten(rest) == WrittenMembers(ms, letters).value;
      assert forall i :: 0 < i < |ms| ==> ms[i] == ms[1..][i - 1] && parts[i] == rest[i - 1];
    }
  }
}
