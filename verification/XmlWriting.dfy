/** Which documents format.rs can write: a condition on names and characters alone. */
module XmlWriting {
  import opened Json
  import opened OrderedJson
  import opened Format

  /** A scalar of characters that XML allows. */
  predicate WritableText(v: Value) {
    ScalarText(v).Ok? && ValidText(ScalarText(v).value)
  }

  /** Every element and attribute name is an XML name, attributes and texts are scalars, and all their characters
      are XML characters. */
  predicate Writable(name: string, v: Value, letters: Letters)
    decreases v
  {
    ValidName(name, letters) &&
    match v
    case Obj(m) => forall k :: k in m ==>
      if IsAttributeKey(k) then ValidName(k[1..], letters) && WritableText(m[k])
      else if k == "#text" then WritableText(m[k])
      else Writable(k, m[k], letters)
    case Arr(items) => forall i :: 0 <= i < |items| ==> Writable(name, items[i], letters)
    case _ => WritableText(v)
  }

  /** A whole document: an object of one member that can be written. */
  predicate WritableDocument(v: Value, letters: Letters) {
    v.Obj? && |v.members| == 1 && forall k :: k in v.members ==> Writable(k, v.members[k], letters)
  }

  // ---------- one member ----------

  predicate WritableMember(m: Member, letters: Letters) {
    if IsAttributeKey(m.name) then ValidName(m.name[1..], letters) && WritableText(Erase(m.node))
    else if m.name == "#text" then WritableText(Erase(m.node))
    else Written(m.name, m.node, letters).Ok?
  }

  lemma NodeTextErased(n: Node)
    requires Valid(n)
    ensures NodeText(n) == ScalarText(Erase(n))
  {
  }

  lemma {:induction false} AttributesWritten(ms: seq<Member>, letters: Letters)
    requires forall i :: 0 <= i < |ms| ==> Valid(ms[i].node)
    ensures Attributes(ms, letters).Ok? <==>
              forall i :: 0 <= i < |ms| && IsAttributeKey(ms[i].name) ==> WritableMember(ms[i], letters)
  {
    hide ValidName, Valid, Written, NodeText, ScalarText, Erase;
    if ms != [] {
      AttributesWritten(ms[1..], letters);
      NodeTextErased(ms[0].node);
      assert ms == [ms[0]] + ms[1..];
    }
  }

  lemma {:induction false} TextWritten(ms: seq<Member>, letters: Letters)
    requires DistinctNames(ms) && forall i :: 0 <= i < |ms| ==> Valid(ms[i].node)
    ensures ObjectText(ms).Ok? <==> forall i :: 0 <= i < |ms| && ms[i].name == "#text" ==> WritableMember(ms[i], letters)
  {
    hide ValidName, Valid, Written, NodeText, ScalarText, Erase;
    if ms != [] {
      TextWritten(ms[1..], letters);
      NodeTextErased(ms[0].node);
      assert ms == [ms[0]] + ms[1..];
    }
  }

  lemma {:induction false} ChildrenWritten(ms: seq<Member>, letters: Letters)
    ensures WrittenMembers(ms, letters).Ok? <==>
              forall i :: 0 <= i < |ms| && IsChildKey(ms[i].name) ==> WritableMember(ms[i], letters)
  {
    hide Written;
    if ms != [] {
      ChildrenWritten(ms[1..], letters);
      assert ms == [ms[0]] + ms[1..];
    }
  }

  lemma {:induction false} ItemsWritten(name: string, items: seq<Node>, letters: Letters)
    ensures WrittenItems(name, items, letters).Ok? <==> forall i :: 0 <= i < |items| ==> Written(name, items[i], letters).Ok?
  {
    hide Written;
    if items != [] {
      ItemsWritten(name, items[1..], letters);
      assert items == [items[0]] + items[1..];
    }
  }

  lemma {:induction false} MembersWritten(name: string, ms: seq<Member>, letters: Letters)
    requires Valid(Members(ms)) && ValidName(name, letters)
    ensures Written(name, Members(ms), letters).Ok? <==> forall i :: 0 <= i < |ms| ==> WritableMember(ms[i], letters)
  {
    AttributesWritten(ms, letters);
    TextWritten(ms, letters);
    ChildrenWritten(ms, letters);
    hide ValidName, Valid, WrittenMembers, Attributes, ObjectText, WritableMember;
  }

  // ---------- a whole element ----------

  lemma {:induction false} WrittenIff(name: string, n: Node, letters: Letters)
    requires Valid(n)
    ensures Written(name, n, letters).Ok? <==> Writable(name, Erase(n), letters)
    decreases n
  {
    hide ValidName;
    if ValidName(name, letters) {
      match n
      case Scalar(_) =>
      case Items(items) =>
        ItemsWritten(name, items, letters);
        forall i | 0 <= i < |items|
          ensures Written(name, items[i], letters).Ok? <==> Writable(name, Erase(items[i]), letters)
        {
          WrittenIff(name, items[i], letters);
        }
        ItemsWritable(name, items, letters);
      case Members(ms) =>
        MembersWritten(name, ms, letters);
        forall i | 0 <= i < |ms| && IsChildKey(ms[i].name)
          ensures Written(ms[i].name, ms[i].node, letters).Ok? <==> Writable(ms[i].name, Erase(ms[i].node), letters)
        {
          WrittenIff(ms[i].name, ms[i].node, letters);
        }
        MembersWritable(name, ms, letters);
    }
  }

  lemma {:induction false} ItemsWritable(name: string, items: seq<Node>, letters: Letters)
    requires ValidName(name, letters)
    ensures Writable(name, Erase(Items(items)), letters) <==> forall i :: 0 <= i < |items| ==> Writable(name, Erase(items[i]), letters)
  {
    hide ValidName;
    var all := Erase(Items(items)).items;
    assert |all| == |items| && forall i :: 0 <= i < |items| ==> all[i] == Erase(items[i]);
    hide Erase;
    assert Writable(name, Arr(all), letters) <==> forall i :: 0 <= i < |all| ==> Writable(name, all[i], letters);
  }

  /** What a member of an object must be. */
  predicate MemberWritable(k: string, v: Value, letters: Letters) {
    if IsAttributeKey(k) then ValidName(k[1..], letters) && WritableText(v)
    else if k == "#text" then WritableText(v)
    else Writable(k, v, letters)
  }

  ghost predicate AllWritable(m: map<string, Value>, letters: Letters) {
    forall k :: k in m ==> MemberWritable(k, m[k], letters)
  }

  lemma {:induction false} EachErased(ms: seq<Member>, letters: Letters)
    requires DistinctNames(ms)
    ensures (forall i :: 0 <= i < |ms| ==> MemberWritable(ms[i].name, Erase(ms[i].node), letters)) <==> AllWritable(EraseMembers(ms), letters)
  {
    hide MemberWritable, Erase;
    var m := EraseMembers(ms);
    EraseNames(ms);
    forall i | 0 <= i < |ms|
      ensures ms[i].name in m && m[ms[i].name] == Erase(ms[i].node)
    {
      EraseAt(ms, i);
    }
    hide EraseMembers, DistinctNames;
  }

  lemma {:induction false} MembersWritable(name: string, ms: seq<Member>, letters: Letters)
    requires Valid(Members(ms)) && ValidName(name, letters)
    requires forall i :: 0 <= i < |ms| && IsChildKey(ms[i].name) ==>
               (Written(ms[i].name, ms[i].node, letters).Ok? <==> Writable(ms[i].name, Erase(ms[i].node), letters))
    ensures (forall i :: 0 <= i < |ms| ==> WritableMember(ms[i], letters)) <==> Writable(name, Obj(EraseMembers(ms)), letters)
  {
    EachErased(ms, letters);
    hide ValidName, Valid, Erase, EraseMembers, Written, WritableText;
    forall i | 0 <= i < |ms|
      ensures WritableMember(ms[i], letters) <==> MemberWritable(ms[i].name, Erase(ms[i].node), letters)
    {
    }
    ObjectWritable(name, EraseMembers(ms), letters);
    hide WritableMember, MemberWritable, AllWritable, Writable;
  }

  lemma ObjectWritable(name: string, m: map<string, Value>, letters: Letters)
    requires ValidName(name, letters)
    ensures Writable(name, Obj(m), letters) <==> AllWritable(m, letters)
  {
    hide ValidName, WritableText;
  }

  // ---------- what can be written has ----------

  /** No member is named "0", and attributes and texts are scalars. */
  predicate Spellable(v: Value)
    decreases v
  {
    match v
    case Obj(m) => SpellableNames(m) && forall k :: k in m ==> Spellable(m[k])
    case Arr(items) => forall i :: 0 <= i < |items| ==> Spellable(items[i])
    case _ => true
  }

  predicate SpellableNames(m: map<string, Value>) {
    "0" !in m && forall k :: k in m && ("@" <= k || k == "#text") ==> !m[k].Obj? && !m[k].Arr?
  }

  lemma {:induction false} ZeroIsNoName(letters: Letters)
    ensures !ValidName("0", letters) && !IsAttributeKey("0") && "0" != "#text"
  {
    var parts := SplitColon("0");
    assert "0"[1..] == "" && SplitColon("") == [""] && [""][1..] == [];
    assert parts == [['0'] + ""] + [];
    assert parts[0][0] == '0';
  }

  lemma {:induction false} WritableSpellable(name: string, v: Value, letters: Letters)
    requires Writable(name, v, letters)
    ensures Spellable(v)
    decreases v
  {
    hide ValidName, ValidText;
    match v
    case Obj(m) =>
      ZeroIsNoName(letters);
      forall k | k in m
        ensures Spellable(m[k]) && (k == "0" ==> false) && ("@" <= k || k == "#text" ==> !m[k].Obj? && !m[k].Arr?)
      {
        assert "@" <= k <==> IsAttributeKey(k);
        if !IsAttributeKey(k) && k != "#text" {
          WritableSpellable(k, m[k], letters);
        }
      }
    case Arr(items) =>
      forall i | 0 <= i < |items|
        ensures Spellable(items[i])
      {
        WritableSpellable(name, items[i], letters);
      }
    case _ =>
  }

  // ---------- what goes wrong ----------

  /** The errors that stop the writing of an element. */
  predicate ElementError(e: XmlError) {
    e.InvalidName? || e.InvalidCharacter? || e.NonScalarText?
  }

  lemma {:induction false} AttributesFail(ms: seq<Member>, letters: Letters)
    ensures Attributes(ms, letters).Err? ==> ElementError(Attributes(ms, letters).error)
  {
    hide ValidName;
    if ms != [] {
      AttributesFail(ms[1..], letters);
    }
  }

  lemma {:induction false} TextFails(ms: seq<Member>)
    ensures ObjectText(ms).Err? ==> ElementError(ObjectText(ms).error)
  {
    if ms != [] {
      TextFails(ms[1..]);
    }
  }

  lemma {:induction false} WrittenFails(name: string, n: Node, letters: Letters)
    ensures Written(name, n, letters).Err? ==> ElementError(Written(name, n, letters).error)
    decreases n, 1
  {
    hide ValidName, ValidText;
    match n
    case Scalar(_) =>
    case Items(items) => ItemsFail(name, items, letters);
    case Members(ms) =>
      AttributesFail(ms, letters);
      MembersFail(ms, letters);
      TextFails(ms);
  }

  lemma {:induction false} ItemsFail(name: string, items: seq<Node>, letters: Letters)
    ensures WrittenItems(name, items, letters).Err? ==> ElementError(WrittenItems(name, items, letters).error)
    decreases items, 2
  {
    if items != [] {
      WrittenFails(name, items[0], letters);
      ItemsFail(name, items[1..], letters);
    }
  }

  lemma {:induction false} MembersFail(ms: seq<Member>, letters: Letters)
    ensures WrittenMembers(ms, letters).Err? ==> ElementError(WrittenMembers(ms, letters).error)
    decreases ms, 2
  {
    if ms != [] {
      WrittenFails(ms[0].name, ms[0].node, letters);
      MembersFail(ms[1..], letters);
    }
  }
}
