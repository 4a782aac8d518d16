/** TIDAS to eILCD XML and back: the whole path. */
module EndToEnd {
  import opened Json
  import opened Pointer
  import opened XmlText
  import opened OrderedJson
  import Ordering
  import opened Overlay
  import opened Recovery
  import opened Steps
  import opened Format
  import opened XmlRoundTrip
  import opened XmlWriting
  import opened XmlRecovery
  import opened Rules
  import opened Surface
  import opened Exposure
  import opened Adaptation
  import opened Lossless
  import Sidecars

  // ---------- the documents XML can carry ----------

  /** The documents the whole path restores: nothing is exposed, and where the projection records nothing, no array
      is an item of an array and text stays. */
  predicate XmlSafeSource(v: Value, category: string) {
    !Exposed(v, "", category) && Flat(v, "", category) && TextStays(v, "", category)
  }

  // ---------- scalars ----------

  lemma {:induction false} SpacelessSettled(t: string)
    requires t != "" && t[|t| - 1] != 'l' && forall c :: c in t ==> !IsSpace(c)
    ensures Settled(t) && !EndsWith(t, ".xml") && ProjectText(t) == t && OneLine(t)
  {
    assert Settled(t) && OneLine(t) by {
      assert t[0] in t && t[|t| - 1] in t;
    }
    ProjectTextSettles(t);
    hide IsSpace, Settled, OneLine, ProjectText;
    if |t| >= 4 {
      assert ".xml"[3] == 'l' && t[|t| - 4..][3] == t[|t| - 1];
    }
  }

  lemma {:induction false} NumberSettled(t: string)
    requires IsNumberText(t)
    ensures Settled(t) && !EndsWith(t, ".xml") && ProjectText(t) == t && OneLine(t)
  {
    assert t[|t| - 1] != 'l' && forall c :: c in t ==> !IsSpace(c);
    hide *;
    SpacelessSettled(t);
  }

  lemma {:induction false} FlagSettled(flag: bool)
    ensures Settled(BoolText(flag)) && !EndsWith(BoolText(flag), ".xml") && ProjectText(BoolText(flag)) == BoolText(flag)
    ensures OneLine(BoolText(flag))
  {
    var t := BoolText(flag);
    assert t != "" && t[|t| - 1] == 'e' && forall c :: c in t ==> !IsSpace(c);
    hide *;
    SpacelessSettled(t);
  }

  /** The string a scalar becomes stands for the scalar. */
  lemma {:induction false} ScalarNormal(v: Value, field: string)
    requires !v.Obj? && !v.Arr? && !v.Null?
    ensures Normalize(Str(ValueText(v)), field) == Normalize(v, field)
    ensures v.Num? || v.Bool? ==> ProjectText(ValueText(v)) == ValueText(v) && ValueText(v) != ""
    ensures (v.Str? ==> OneLine(v.value)) ==> AttributeText(ValueText(v)) == ValueText(v)
  {
    AttributeTextSettles(ValueText(v));
    hide Settled, EndsWith, ProjectText, OneLine, AttributeText;
    match v
    case Num(t) => NumberSettled(t);
    case Bool(flag) => FlagSettled(flag);
    case Str(_) =>
  }

  lemma {:induction false} ScalarStands(v: Value, R: Patch, ts: Path, field: string)
    requires !v.Obj? && !v.Arr? && ElementText(v)
    ensures Stands(CanonElement(v), v, R, ts, field)
  {
    hide Trim, LineEnds, Settled;
    BlankLine();
    if !v.Null? {
      ScalarNormal(v, field);
      if v.Str? {
        ProjectTextSettles(v.value);
      }
    }
  }

  // ---------- objects ----------

  /** The object is not read back as a plain string. */
  predicate StaysElement(m: map<string, Value>) {
    CanonAttributes(m) != map[] || CanonChildren(m) != map[] || CanonText(m) == ""
  }

  /** A member can be laid back over the element of an object that lost it exactly when that element is not read back
      as a plain string. */
  lemma {:induction false} LaidBackIff(m: map<string, Value>, k: string, x: Value)
    requires k != "0"
    ensures SetParts(CanonElement(Obj(m - {k})), [k], x).Ok? <==> StaysElement(m - {k})
  {
    hide CanonElement, CanonAttributes, CanonChildren, CanonText;
    CanonObject(m - {k});
    assert [k][1..] == [];
  }

  lemma {:induction false} StaysObject(m: map<string, Value>)
    requires StaysElement(m)
    ensures CanonElement(Obj(m)).Null? || CanonElement(Obj(m)).Obj?
    ensures CanonElement(Obj(m)).Null? ==> CanonAttributes(m) == map[] && CanonChildren(m) == map[] && CanonText(m) == ""
    ensures CanonElement(Obj(m)).Obj? ==>
      CanonElement(Obj(m)).members
      == CanonAttributes(m) + CanonChildren(m) + (if CanonText(m) == "" then map[] else map["#text" := Str(CanonText(m))])
  {
    hide CanonElement, CanonItems, Collapse, CanonChildren, CanonAttributes, ValueText;
    CanonObject(m);
    var both := CanonAttributes(m) + CanonChildren(m);
    assert both["#text" := Str(CanonText(m))] == both + map["#text" := Str(CanonText(m))];
    assert both + map[] == both;
  }

  /** Text that has another member beside it is not alone in XML either. */
  lemma {:induction false} FitsStays(m: map<string, Value>)
    requires TextFits(m)
    ensures StaysElement(m)
  {
    hide CanonItems, Collapse, ValueText, HasElement;
    if CanonText(m) != "" {
      var k :| k in m && k != "#text" && ("@" <= k || HasElement(m[k]));
      if IsAttributeKey(k) {
        assert k in CanonAttributes(m);
      } else {
        SomeItem(m[k]);
        assert k in CanonChildren(m);
      }
    }
  }

  lemma {:induction false} SomeItem(v: Value)
    ensures CanonItems(v) != [] <==> HasElement(v)
    decreases v
  {
    hide CanonElement;
    if v.Arr? {
      SomeOf(v.items);
    }
  }

  lemma {:induction false} SomeOf(items: seq<Value>)
    ensures CanonAll(items) != [] <==> exists i :: 0 <= i < |items| && HasElement(items[i])
    decreases items
  {
    hide CanonElement, CanonItems, HasElement;
    if items != [] {
      SomeItem(items[0]);
      SomeOf(items[1..]);
      assert items == [items[0]] + items[1..];
    }
  }

  lemma {:induction false} AttributeKeys(key: string)
    ensures IsAttributeKey(key) <==> "@" <= key
  {
  }

  lemma {:induction false} TextKeys()
    ensures !IsChildKey("#text") && !IsAttributeKey("#text") && !("@" <= "#text")
  {
    assert "#text"[0] == '#' && "@"[0] == '@';
  }

  /** The member of the canonical object that stands for one member of the object. */
  lemma {:induction false} MemberStands(m: map<string, Value>, k: string, R: Patch, ts: Path, path: string, category: string)
    requires SpellableNames(m) && SurfaceHere(m, path, category) && StaysElement(m) && k in m && !(ts + [k] in R)
    requires MemberStays(k, m[k])
    requires IsChildKey(k) ==> CanonItems(m[k]) != [] && Stands(Collapse(CanonItems(m[k])), m[k], R, ts + [k], k)
    ensures k in MembersOf(CanonElement(Obj(m)))
    ensures Stands(MembersOf(CanonElement(Obj(m)))[k], m[k], R, ts + [k], k)
  {
    hide CanonElement, CanonItems, Collapse, Stands, Trim, LineEnds, CanonText, ScalarText, SurfaceHere, AttributeText, OneLine;
    StaysObject(m);
    AttributeKeys(k);
    TextKeys();
    var x := MembersOf(CanonElement(Obj(m)));
    if IsAttributeKey(k) {
      assert k in CanonAttributes(m);
      assert x[k] == Str(AttributeText(ValueText(m[k])));
      ScalarNormal(m[k], k);
      StrStands(x[k], m[k], R, ts + [k], k);
    } else if k == "#text" {
      TextMember(m, path, category);
      assert x[k] == Str(ValueText(m[k]));
      ScalarNormal(m[k], k);
      StrStands(x[k], m[k], R, ts + [k], k);
    } else {
      assert k in CanonChildren(m);
      assert x[k] == Collapse(CanonItems(m[k]));
    }
  }

  lemma {:induction false} StrStands(x: Value, v: Value, R: Patch, ts: Path, field: string)
    requires !v.Obj? && !v.Arr? && Normalize(x, field) == Normalize(v, field)
    ensures Stands(x, v, R, ts, field)
  {
  }

  lemma {:induction false} TextMember(m: map<string, Value>, path: string, category: string)
    requires SurfaceHere(m, path, category) && "#text" in m && !m["#text"].Obj? && !m["#text"].Arr?
    ensures !m["#text"].Null? && CanonText(m) == ValueText(m["#text"]) && CanonText(m) != ""
  {
    hide Trim, LineEnds, Settled;
    TextKeys();
    var v := m["#text"];
    assert MemberFits("#text", v, path, category);
    if v.Str? {
      ProjectTextSettles(v.value);
      BlankNothing();
      TrimBlank("");
      assert v.value != "";
    } else {
      ScalarNormal(v, "#text");
    }
  }

  // ---------- whole values ----------

  /** What the projection of a safe source satisfies at some place. */
  ghost predicate Sound(v: Value, R: Patch, ts: Path, path: string, category: string) {
    Spellable(v) && OnSurface(v, path, category) && NonNested(R) && Fits(v, R, ts) && FlatKept(v, R, ts) && TextKept(v, R, ts)
  }

  lemma {:induction false} SoundMember(m: map<string, Value>, k: string, R: Patch, ts: Path, path: string, category: string)
    requires Sound(Obj(m), R, ts, path, category) && k in m && !(ts in R)
    ensures Sound(m[k], R, ts + [k], Join(path, Escape(k)), category)
    ensures ts + [k] !in R ==> MemberStays(k, m[k])
    ensures ts + [k] !in R && IsChildKey(k) ==> HasElement(m[k]) && (!m[k].Obj? && !m[k].Arr? ==> ElementText(m[k]))
  {
    hide SpellableNames, TextFits, Settled, MemberStays, NonNested, HasElement;
    assert MemberFits(k, m[k], path, category);
    AttributeKeys(k);
    if ts + [k] !in R {
      ElementHere(m[k], R, ts + [k]);
      ChildText(k, m[k], path, category);
    }
  }

  lemma ElementHere(v: Value, R: Patch, ts: Path)
    requires FlatKept(v, R, ts) && ts !in R && v != Arr([])
    ensures HasElement(v)
  {
    if v.Arr? {
      assert !v.items[0].Arr? && HasElement(v.items[0]);
    }
  }

  lemma ChildText(k: string, v: Value, path: string, category: string)
    requires MemberFits(k, v, path, category) && MemberStays(k, v)
    ensures !("@" <= k) && k != "#text" ==> ElementText(v)
  {
    hide Settled;
  }

  lemma {:induction false} SoundItem(items: seq<Value>, i: nat, R: Patch, ts: Path, path: string, category: string)
    requires Sound(Arr(items), R, ts, path, category) && i < |items| && !(ts in R)
    ensures !items[i].Arr? && ElementText(items[i])
    ensures Sound(items[i], R, ts + [Decimal(i)], Join(path, Decimal(i)), category)
    ensures items[i].Obj? ==> SpellableNames(items[i].members) && TextFits(items[i].members)
  {
    hide TextFits, SpellableNames, Settled, SurfaceHere;
  }

  /** The canonical form of every projected element stands for it. */
  lemma {:induction false} ElementStands(v: Value, R: Patch, ts: Path, path: string, category: string, field: string)
    requires Sound(v, R, ts, path, category) && !v.Arr?
    requires !(ts in R) && !v.Obj? ==> ElementText(v)
    ensures Stands(CanonElement(v), v, R, ts, field)
    decreases v, 0
  {
    hide CanonElement, Stands, Sound, Collapse, CanonItems, HasElement;
    if ts in R {
      CoveredStands(CanonElement(v), v, R, ts, field);
    } else if v.Obj? {
      var m := v.members;
      SoundParts(v, R, ts, path, category);
      FitsStays(m);
      forall k | k in m && !(ts + [k] in R)
        ensures k in MembersOf(CanonElement(v))
        ensures Stands(MembersOf(CanonElement(v))[k], m[k], R, ts + [k], k)
      {
        SoundMember(m, k, R, ts, path, category);
        if IsChildKey(k) {
          ValueStands(m[k], k, R, ts + [k], Join(path, Escape(k)), category);
        }
        MemberStands(m, k, R, ts, path, category);
      }
      ObjectStands(m, R, ts, field);
    } else {
      ScalarStands(v, R, ts, field);
    }
  }

  lemma {:induction false} CoveredStands(x: Value, v: Value, R: Patch, ts: Path, field: string)
    requires ts in R
    ensures Stands(x, v, R, ts, field)
  {
    assert ts <= ts;
  }

  lemma {:induction false} SoundParts(v: Value, R: Patch, ts: Path, path: string, category: string)
    requires Sound(v, R, ts, path, category)
    ensures v.Obj? ==> SpellableNames(v.members) && SurfaceHere(v.members, path, category)
    ensures v.Obj? && !(ts in R) ==> TextFits(v.members)
  {
  }

  lemma {:induction false} ObjectStands(m: map<string, Value>, R: Patch, ts: Path, field: string)
    requires SpellableNames(m) && StaysElement(m) && !(ts in R)
    requires forall k :: k in m && !(ts + [k] in R) ==>
      k in MembersOf(CanonElement(Obj(m))) && Stands(MembersOf(CanonElement(Obj(m)))[k], m[k], R, ts + [k], k)
    ensures Stands(CanonElement(Obj(m)), Obj(m), R, ts, field)
  {
    hide CanonElement, CanonText, CanonItems, Collapse;
    StaysObject(m);
    CanonNames(m);
    var x := CanonElement(Obj(m));
    assert "0" !in MembersOf(x);
    if Clear(R, ts) {
      ClearMembers(MembersOf(x), m, R, ts, field);
      assert x.Null? ==> Normalize(Obj(map[]), field) == Null;
    }
  }

  /** The same for the value of a member, which may be an array. */
  lemma {:induction false} ValueStands(v: Value, k: string, R: Patch, ts: Path, path: string, category: string)
    requires Sound(v, R, ts, path, category) && HasElement(v) && !(ts in R)
    requires !v.Obj? && !v.Arr? ==> ElementText(v)
    ensures CanonItems(v) != [] && Stands(Collapse(CanonItems(v)), v, R, ts, k)
    decreases v, 1
  {
    hide Stands, Sound, CanonElement, HasElement;
    SomeItem(v);
    if v.Arr? {
      var items := v.items;
      forall i | 0 <= i < |items|
        ensures !items[i].Arr? && Stands(CanonElement(items[i]), items[i], R, ts + [Decimal(i)], k)
      {
        SoundItem(items, i, R, ts, path, category);
        ElementStands(items[i], R, ts + [Decimal(i)], Join(path, Decimal(i)), category, k);
      }
      CanonEach(items);
      ArrayStands(items, k, R, ts, path, category);
    } else {
      ElementStands(v, R, ts, path, category, k);
      assert CanonItems(v) == [CanonElement(v)];
    }
  }

  lemma {:induction false} CanonEach(items: seq<Value>)
    requires forall i :: 0 <= i < |items| ==> !items[i].Arr?
    ensures |CanonAll(items)| == |items| && forall i :: 0 <= i < |items| ==> CanonAll(items)[i] == CanonElement(items[i])
  {
    hide CanonElement;
    if items != [] {
      CanonEach(items[1..]);
      assert CanonItems(items[0]) == [CanonElement(items[0])];
    }
  }

  lemma {:induction false} ArrayStands(items: seq<Value>, k: string, R: Patch, ts: Path, path: string, category: string)
    requires Sound(Arr(items), R, ts, path, category) && items != [] && !(ts in R)
    requires forall i :: 0 <= i < |items| ==> !items[i].Arr? && Stands(CanonElement(items[i]), items[i], R, ts + [Decimal(i)], k)
    requires |CanonAll(items)| == |items| && forall i :: 0 <= i < |items| ==> CanonAll(items)[i] == CanonElement(items[i])
    ensures Stands(Collapse(CanonAll(items)), Arr(items), R, ts, k)
  {
    hide CanonElement, OnSurface, CanonAll, TextFits, FlatKept, TextKept, Spellable;
    var xs := CanonAll(items);
    if Clear(R, ts) {
      forall i | 0 <= i < |items|
        ensures Normalize(xs[i], k) == Normalize(items[i], k)
      {
        ClearChild(R, ts, Decimal(i));
        assert Stands(CanonElement(items[i]), items[i], R, ts + [Decimal(i)], k);
      }
      SameNormalItems(xs, items, k);
    } else if |items| == 1 {
      ReachedItem(items[0], R, ts);
      SoundItem(items, 0, R, ts, path, category);
      FitsStays(items[0].members);
      StaysObject(items[0].members);
      assert "0" !in MembersOf(CanonElement(items[0])) by { CanonNames(items[0].members); }
    }
  }

  lemma {:induction false} CanonNames(m: map<string, Value>)
    requires StaysElement(m)
    ensures forall k :: k in MembersOf(CanonElement(Obj(m))) ==> k in m
  {
    hide CanonElement, CanonItems, Collapse, ProjectText, ValueText;
    StaysObject(m);
  }

  /** A fragment below a singleton array goes through its item, which is an object. */
  lemma {:induction false} ReachedItem(item: Value, R: Patch, ts: Path)
    requires !item.Arr? && Fits(Arr([item]), R, ts) && !(ts in R) && !Clear(R, ts)
    ensures item.Obj?
  {
    var p :| p in R && ts <= p;
    assert p != ts && ts < p;
    assert NextFits(Arr([item]), p, ts);
    assert [item][0] == item;
    var zero := ts + [Decimal(0)];
    PrefixStep(ts, Decimal(0), p);
    if p != zero {
      assert zero < p;
      assert Fits(item, R, zero);
      assert !(zero in R) ==> NextFits(item, p, zero);
      if zero in R {
        assert NextFits(Arr([item]), zero, ts);
      }
    }
  }

  // ---------- the whole path ----------

  lemma {:induction false} ValidNameStart(name: string, letters: Letters)
    requires ValidName(name, letters)
    ensures name != "" && name[0] != '@' && name[0] != '#'
  {
    var parts := SplitColon(name);
    assert ValidNamePart(parts[0], letters);
    assert parts[0][0] == name[0];
  }

  /** A document of one root element that can be written. */
  lemma {:induction false} RootSpellable(root: string, v: Value, letters: Letters)
    requires Writable(root, v, letters)
    ensures Spellable(Obj(map[root := v])) && root != "0" && !("@" <= root) && root != "#text"
  {
    ZeroIsNoName(letters);
    ValidNameStart(root, letters);
    assert "#text"[0] == '#';
    hide ValidName;
    WritableSpellable(root, v, letters);
    hide Writable;
  }

  lemma {:induction false} ProjectedSound(source: Value, p: ProjectedDocument, category: string)
    requires XmlSafeSource(source, category) && Projects(source, category, p) && Spellable(p.document)
    ensures Sound(p.document, Fragments(p.recovery), [], "", category)
  {
    hide OnSurface, Exposed, Flat, FlatKept, TextStays, TextKept, Tracks, Alike, Remains, Spellable, HasElement;
    TracksText(source, p.document, Fragments(p.recovery), [], "", category);
    TracksFlat(source, p.document, Fragments(p.recovery), [], "", category);
    match p.recovery
    case None => ClearOverlay(p.document, map[], []);
    case Some(contract) => PatchNonNested(contract.restorations, 0);
  }

  /** The canonical form of a projected document stands for it. */
  lemma {:induction false} DocumentStands(root: string, v: Value, R: Patch, category: string)
    requires Sound(Obj(map[root := v]), R, [], "", category) && !v.Arr? && IsChildKey(root)
    ensures Stands(CanonDocument(root, v), Obj(map[root := v]), R, [], "")
  {
    hide CanonElement, Stands, Sound, OnSurface, HasElement;
    var doc := Obj(map[root := v]);
    if [] in R {
      CoveredStands(CanonDocument(root, v), doc, R, [], "");
    } else {
      SoundMember(doc.members, root, R, [], "", category);
      SoundParts(doc, R, [], "", category);
      ElementStands(v, R, [] + [root], Join("", Escape(root)), category, root);
      RootStands(root, v, R);
    }
  }

  lemma {:induction false} RootStands(root: string, v: Value, R: Patch)
    requires !([] in R) && SpellableNames(map[root := v]) && Stands(CanonElement(v), v, R, [] + [root], root)
    ensures Stands(CanonDocument(root, v), Obj(map[root := v]), R, [], "")
  {
    hide CanonElement;
    var x, m := map[root := CanonElement(v)], map[root := v];
    assert root in m;
    assert root != "0";
    if Clear(R, []) {
      ClearMembers(x, m, R, [], "");
    }
  }

  /** The whole path on the dataset: for every safe source, every member order the orderer may choose, and every way
      the tokenizer may deliver the written events, reading the XML back and laying the recovery contract over it
      succeeds and gives a document equal to the source up to normalization. */
  lemma {:induction false} RoundTrip(source: Value, category: string, p: ProjectedDocument, root: string, n: Node,
                                     chunks: seq<seq<Event>>, tail: seq<Event>, letters: Letters)
    requires XmlSafeSource(source, category) && Projects(source, category, p)
    requires Valid(n) && !n.Items? && p.document == Obj(map[root := Erase(n)])
    requires Written(root, n, letters).Ok? && Reads(Written(root, n, letters).value, chunks) && Noise(tail)
    ensures Parsed(Flatten(chunks) + tail, letters).Ok?
    ensures var x := Parsed(Flatten(chunks) + tail, letters).value;
      Recovered(x, p.recovery).Ok?
      && SemanticDigest(Recovered(x, p.recovery).value) == SemanticDigest(source)
      && (source.Obj? ==> Recovered(x, p.recovery).value.Obj?)
  {
    hide OnSurface, Flat, TextStays, Stands, Sound, CanonDocument, Written, Writable, Spellable, Erase, Valid, Overlay.Fits, Adapted,
      Tracks, XmlSafeSource, IsChildKey;
    ReadBack(root, n, chunks, tail, letters);
    var x := CanonDocument(root, Erase(n));
    RootWritten(root, n, letters);
    ProjectedSound(source, p, category);
    ErasedElement(n);
    DocumentStands(root, Erase(n), Fragments(p.recovery), category);
    match p.recovery
    case None => NothingLeft(x, p.document, map[]); ClearOverlay(p.document, map[], []);
    case Some(contract) => RestoreCollapsed(x, p.document, contract.restorations);
  }

  /** A document that was written has one root element with a name. */
  lemma {:induction false} RootWritten(root: string, n: Node, letters: Letters)
    requires Valid(n) && Written(root, n, letters).Ok?
    ensures Spellable(Obj(map[root := Erase(n)])) && IsChildKey(root) && ValidName(root, letters)
  {
    WrittenIff(root, n, letters);
    hide Written, Valid, Erase, ValidName, Spellable;
    RootSpellable(root, Erase(n), letters);
    AttributeKeys(root);
  }

  lemma {:induction false} ErasedElement(n: Node)
    requires Valid(n) && !n.Items?
    ensures !Erase(n).Arr?
  {
  }

  /** merge_projection_recovery ends by restoring the field types of processes. */
  function Typed(x: Value, category: string): Value {
    if category == "processes" then Sidecars.ProcessTypes(x) else x
  }

  /** The whole path on a file: with members beside the dataset root kept in an envelope, the recovery contract applied
      and the process field types restored, the merged document equals the source file up to normalization. */
  lemma {:induction false} FileRoundTrip(document: Value, category: string, root: string, split: Sidecars.SplitDocument,
                                         p: ProjectedDocument, n: Node, chunks: seq<seq<Event>>, tail: seq<Event>, letters: Letters)
    requires Sidecars.SplitEnvelope(document, Some(root)) == Ok(split)
    requires XmlSafeSource(split.document, category) && Projects(split.document, category, p)
    requires category == "processes" ==> Sidecars.YearsCanonical(SemanticDigest(split.document))
    requires Valid(n) && !n.Items? && p.document == Obj(map[root := Erase(n)])
    requires Written(root, n, letters).Ok? && Reads(Written(root, n, letters).value, chunks) && Noise(tail)
    ensures Parsed(Flatten(chunks) + tail, letters).Ok?
    ensures var recovered := Recovered(Parsed(Flatten(chunks) + tail, letters).value, p.recovery);
      recovered.Ok?
      && var dataset := Typed(recovered.value, category);
         match split.envelope
         case None => SemanticDigest(dataset) == SemanticDigest(document)
         case Some(envelope) =>
           dataset.Obj? && dataset.members.Keys !! envelope.Keys
           && SemanticDigest(Obj(dataset.members + envelope)) == SemanticDigest(document)
  {
    hide XmlSafeSource, Projects, Written, Erase, Valid, Sidecars.ProcessTypes, Parsed, Reads, Noise,
      Sidecars.YearsCanonical;
    RoundTrip(split.document, category, p, root, n, chunks, tail, letters);
    var recovered := Recovered(Parsed(Flatten(chunks) + tail, letters).value, p.recovery).value;
    var dataset := Typed(recovered, category);
    if category == "processes" {
      Sidecars.ProcessTypesNormal(recovered);
      TypesKeepObject(recovered);
    }
    if split.envelope.Some? {
      Sidecars.EnvelopeRoundTrip(document, root, split, dataset);
    }
  }

  lemma {:induction false} TypesKeepObject(v: Value)
    ensures v.Obj? ==> Sidecars.ProcessTypes(v).Obj?
  {
  }

  /** The orderer hands the writer a document of one member that means the projected one. */
  lemma {:induction false} OrdererOutput(c: Ordering.Catalog, fuel: nat, d: Node)
    requires Valid(d) && Ordering.OrderDocument(c, fuel, d).Ok?
    ensures var out := Ordering.OrderDocument(c, fuel, d).value.0;
      && d.Members? && |d.members| == 1
      && out.Members? && |out.members| == 1 && out.members[0].name == d.members[0].name
      && Valid(out.members[0].node)
      && Erase(d) == Obj(map[d.members[0].name := Erase(out.members[0].node)])
  {
    Ordering.OrderDocumentKeepsMeaning(c, fuel, d);
    var out := Ordering.OrderDocument(c, fuel, d).value.0;
    hide Ordering.OrderNode;
    assert out == Members([out.members[0]]);
    EraseSingle(out.members[0]);
  }
}
