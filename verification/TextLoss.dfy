/** Text that stays alone: XML turns its object into a string, and restoring cannot turn it back. */
module TextLoss {
  import opened Json
  import opened Pointer
  import opened XmlText
  import opened OrderedJson
  import opened Overlay
  import opened Recovery
  import opened Steps
  import opened Format
  import opened XmlRoundTrip
  import opened XmlRecovery
  import opened XmlWriting
  import opened Rules
  import opened Surface
  import opened Exposure
  import opened Adaptation
  import opened Lossless
  import opened EndToEnd

  /** Somewhere no fragment holds, an object of `v` has come back in `x` as a string, or a scalar as another one. */
  ghost predicate Broken(x: Value, v: Value, R: Patch, ts: Path, field: string)
    decreases v
  {
    ts !in R
    && match v
       case Obj(m) =>
         "0" !in m
         && (x.Str?
             || (x.Obj? && "0" !in x.members
                 && exists k :: k in m && k in x.members && Broken(x.members[k], m[k], R, ts + [k], k)))
       case Arr(items) =>
         if |items| == 1 then !items[0].Arr? && Broken(x, items[0], R, ts + [Decimal(0)], field)
         else x.Arr? && |x.items| == |items|
              && exists i :: 0 <= i < |items| && Broken(x.items[i], items[i], R, ts + [Decimal(i)], field)
       case _ => Normalize(x, field) != Normalize(v, field)
  }

  lemma {:induction false} AgreeBroken(x: Value, v: Value, R: Patch, S: Patch, ts: Path, field: string)
    requires Agree(R, S, ts) && Broken(x, v, R, ts, field)
    ensures Broken(x, v, S, ts, field)
    decreases v
  {
    assert ts <= ts;
    match v
    case Obj(m) =>
      if !x.Str? {
        var k :| k in m && k in x.members && Broken(x.members[k], m[k], R, ts + [k], k);
        AgreeChild(R, S, ts, k);
        AgreeBroken(x.members[k], m[k], R, S, ts + [k], k);
      }
    case Arr(items) =>
      if |items| == 1 {
        AgreeChild(R, S, ts, Decimal(0));
        AgreeBroken(x, items[0], R, S, ts + [Decimal(0)], field);
      } else {
        var i :| 0 <= i < |items| && Broken(x.items[i], items[i], R, ts + [Decimal(i)], field);
        AgreeChild(R, S, ts, Decimal(i));
        AgreeBroken(x.items[i], items[i], R, S, ts + [Decimal(i)], field);
      }
    case _ =>
  }

  // ---------- writing does not mend it ----------

  /** A write into the collapsed document fails, or leaves it broken. */
  lemma {:induction false} SetBroken(x: Value, v: Value, R: Patch, ts: Path, rel: Path, field: string)
    requires NonNested(R) && ts + rel in R && Fits(v, R, ts) && Broken(x, v, R, ts, field)
    ensures SetParts(v, rel, R[ts + rel]).Ok?
    ensures SetParts(x, rel, R[ts + rel]).Ok? ==>
              Broken(SetParts(x, rel, R[ts + rel]).value, SetParts(v, rel, R[ts + rel]).value, R - {ts + rel}, ts, field)
    decreases |rel|, 1
  {
    var p := ts + rel;
    WriteFits(v, R, ts, rel);
    StringRefuses(x, rel, R[p]);
    hide SetParts, Overlay.Fits, NonNested;
    match v
    case Obj(m) =>
      if x.Obj? {
        var j :| j in m && j in x.members && Broken(x.members[j], m[j], R, ts + [j], j);
        SetBrokenMember(x.members, m, R, ts, rel, j, field);
      }
    case Arr(items) =>
      if |items| == 1 {
        assert items == [items[0]];
        NotHeldHere(x, v, R, ts, field);
        ReachedItem(items[0], R, ts);
        SetBrokenSingle(x, items[0], R, ts, rel, field);
      } else {
        var i :| 0 <= i < |items| && Broken(x.items[i], items[i], R, ts + [Decimal(i)], field);
        SetBrokenItem(x.items, items, R, ts, rel, i, field);
      }
    case _ =>
  }

  /** What a write through a member other than "0" does. */
  lemma {:induction false} WrittenMember(m: map<string, Value>, rel: Path, x: Value)
    requires rel != [] && rel[0] != "0"
    ensures var out := SetParts(Obj(m), rel, x);
      out.Ok? ==> out.value.Obj? && rel[0] in out.value.members && out.value.members == m[rel[0] := out.value.members[rel[0]]]
                  && (rel[1..] != [] && rel[0] in m ==> SetParts(m[rel[0]], rel[1..], x) == Ok(out.value.members[rel[0]]))
  {
  }

  lemma {:induction false} SetBrokenMember(xm: map<string, Value>, m: map<string, Value>, R: Patch, ts: Path, rel: Path, j: string,
                                           field: string)
    requires NonNested(R) && ts + rel in R && rel != [] && Fits(Obj(m), R, ts) && ts !in R
    requires "0" !in m && "0" !in xm && j in m && j in xm && Broken(xm[j], m[j], R, ts + [j], j)
    ensures SetParts(Obj(m), rel, R[ts + rel]).Ok?
    ensures var x', v' := SetParts(Obj(xm), rel, R[ts + rel]), SetParts(Obj(m), rel, R[ts + rel]);
            x'.Ok? ==> Broken(x'.value, v'.value, R - {ts + rel}, ts, field)
    decreases |rel|, 0
  {
    var p, k, rest := ts + rel, rel[0], rel[1..];
    var S := R - {p};
    MemberWrite(m, R, ts, rel);
    WrittenMember(m, rel, R[p]);
    WrittenMember(xm, rel, R[p]);
    hide SetParts, Overlay.Fits, NonNested;
    if j == k {
      NotHeldHere(xm[j], m[j], R, ts + [j], j);
      SetBroken(xm[k], m[k], R, ts + [k], rest, k);
    } else {
      AgreeSibling(R, p, ts, j);
      AgreeBroken(xm[j], m[j], R, S, ts + [j], j);
    }
    var x', v' := SetParts(Obj(xm), rel, R[p]), SetParts(Obj(m), rel, R[p]);
    if x'.Ok? {
      BrokenObject(x'.value.members, v'.value.members, S, ts, j, field);
    }
  }

  lemma NotHeldHere(x: Value, v: Value, R: Patch, ts: Path, field: string)
    requires Broken(x, v, R, ts, field)
    ensures ts !in R
  {
  }

  lemma BrokenObject(xm: map<string, Value>, m: map<string, Value>, R: Patch, ts: Path, j: string, field: string)
    requires ts !in R && "0" !in m && "0" !in xm && j in m && j in xm && Broken(xm[j], m[j], R, ts + [j], j)
    ensures Broken(Obj(xm), Obj(m), R, ts, field)
  {
  }

  /** A write that fits goes through a member other than "0", and on below it when it stays. */
  lemma {:induction false} MemberWrite(m: map<string, Value>, R: Patch, ts: Path, rel: Path)
    requires NonNested(R) && ts + rel in R && rel != [] && Fits(Obj(m), R, ts) && ts !in R && "0" !in m
    ensures SetParts(Obj(m), rel, R[ts + rel]).Ok? && rel[0] != "0" && ts < ts + rel && (ts + rel)[|ts|] == rel[0]
    ensures ts + rel == ts + [rel[0]] + rel[1..] && (rel[1..] == [] ==> ts + rel == ts + [rel[0]])
    ensures rel[0] in m ==> Fits(m[rel[0]], R, ts + [rel[0]])
  {
    SetOne(Obj(m), R, ts, rel);
    hide Overlay.Overlaid, SetParts;
    ParentOfSplit(ts, rel);
    assert NextFits(Obj(m), ts + rel, ts);
  }

  lemma {:induction false} SingleRest(item: Value, R: Patch, ts: Path, rel: Path)
    requires NonNested(R) && ts + rel in R && rel != [] && Fits(Arr([item]), R, ts) && ts !in R
    requires item.Obj? && "0" !in item.members && ts + [Decimal(0)] !in R
    ensures rel[0] == Decimal(0) && rel == [Decimal(0)] + rel[1..] && ts + rel == ts + [Decimal(0)] + rel[1..]
    ensures rel[1..] != [] && rel[1..][0] != "0" && Fits(item, R, ts + [Decimal(0)])
  {
    var p, zero, rest := ts + rel, ts + [Decimal(0)], rel[1..];
    ParentOfSplit(ts, rel);
    assert NextFits(Arr([item]), p, ts);
    assert p == zero + rest;
    assert [item][0] == item;
    assert rest == [] ==> p == zero;
    ParentOfSplit(zero, rest);
    assert NextFits(item, p, zero);
  }

  lemma {:induction false} SetBrokenSingle(x: Value, item: Value, R: Patch, ts: Path, rel: Path, field: string)
    requires NonNested(R) && ts + rel in R && rel != [] && Fits(Arr([item]), R, ts) && ts !in R
    requires item.Obj? && Broken(x, item, R, ts + [Decimal(0)], field)
    ensures SetParts(Arr([item]), rel, R[ts + rel]).Ok?
    ensures var x', v' := SetParts(x, rel, R[ts + rel]), SetParts(Arr([item]), rel, R[ts + rel]);
            x'.Ok? ==> Broken(x'.value, v'.value, R - {ts + rel}, ts, field)
    decreases |rel|, 0
  {
    var p, zero, rest := ts + rel, ts + [Decimal(0)], rel[1..];
    SingleRest(item, R, ts, rel);
    ThroughZero(x, item, rest, R[p]);
    hide SetParts, Overlay.Fits, NonNested;
    SetBroken(x, item, R, zero, rest, field);
    SetAt([item], 0, rel, R[p]);
  }

  lemma {:induction false} ThroughZero(x: Value, item: Value, rest: Path, value: Value)
    requires (x.Str? || (x.Obj? && "0" !in x.members)) && item.Obj? && rest != [] && rest[0] != "0"
    ensures SetParts(x, [Decimal(0)] + rest, value) == SetParts(x, rest, value)
    ensures SetParts(item, rest, value).Ok? ==> SetParts(item, rest, value).value.Obj?
  {
    if x.Obj? {
      SkipZero(x, rest, value);
    }
  }

  lemma StringRefuses(x: Value, rel: Path, value: Value)
    requires rel != []
    ensures x.Str? ==> SetParts(x, rel, value).Err?
  {
  }

  lemma {:induction false} WriteFits(v: Value, R: Patch, ts: Path, rel: Path)
    requires NonNested(R) && ts + rel in R && Fits(v, R, ts) && ts !in R
    ensures rel != [] && SetParts(v, rel, R[ts + rel]).Ok?
  {
    SetOne(v, R, ts, rel);
    assert rel == [] ==> ts + rel == ts;
  }

  /** A write that fits goes through the index of an item, and on below it when the item is not recorded itself. */
  lemma {:induction false} ItemWrite(items: seq<Value>, R: Patch, ts: Path, rel: Path) returns (n: nat)
    requires NonNested(R) && ts + rel in R && rel != [] && Fits(Arr(items), R, ts) && ts !in R
    ensures SetParts(Arr(items), rel, R[ts + rel]).Ok? && n < |items| && rel[0] == Decimal(n)
    ensures ts < ts + rel && (ts + rel)[|ts|] == rel[0]
    ensures ts + rel == ts + [rel[0]] + rel[1..] && (rel[1..] == [] ==> ts + rel == ts + [rel[0]])
    ensures Fits(items[n], R, ts + [rel[0]])
  {
    SetOne(Arr(items), R, ts, rel);
    hide Overlay.Overlaid, SetParts;
    ParentOfSplit(ts, rel);
    assert NextFits(Arr(items), ts + rel, ts);
    n := ParseIndex(rel[0]).value;
  }

  lemma {:induction false} WrittenItem(items: seq<Value>, n: nat, rel: Path, x: Value)
    requires n < |items| && rel != [] && rel[0] == Decimal(n)
    ensures var out, child := SetParts(Arr(items), rel, x), SetParts(items[n], rel[1..], x);
      out.Ok? ==> child.Ok? && out.value == Arr(items[n := child.value])
  {
    ParseDecimal(n);
  }

  lemma {:induction false} SetBrokenItem(xs: seq<Value>, items: seq<Value>, R: Patch, ts: Path, rel: Path, i: nat,
                                         field: string)
    requires NonNested(R) && ts + rel in R && rel != [] && Fits(Arr(items), R, ts) && ts !in R
    requires |xs| == |items| != 1 && i < |items| && Broken(xs[i], items[i], R, ts + [Decimal(i)], field)
    ensures SetParts(Arr(items), rel, R[ts + rel]).Ok?
    ensures var x', v' := SetParts(Arr(xs), rel, R[ts + rel]), SetParts(Arr(items), rel, R[ts + rel]);
            x'.Ok? ==> Broken(x'.value, v'.value, R - {ts + rel}, ts, field)
    decreases |rel|, 0
  {
    hide SetParts, Overlay.Fits, NonNested;
    var p, k, rest := ts + rel, rel[0], rel[1..];
    var S := R - {p};
    var n := ItemWrite(items, R, ts, rel);
    WrittenItem(items, n, rel, R[p]);
    WrittenItem(xs, n, rel, R[p]);
    ParseDecimal(i);
    ParseDecimal(n);
    if i == n {
      NotHeldHere(xs[n], items[n], R, ts + [k], field);
      SetBroken(xs[n], items[n], R, ts + [k], rest, field);
    } else {
      AgreeSibling(R, p, ts, Decimal(i));
      AgreeBroken(xs[i], items[i], R, S, ts + [Decimal(i)], field);
    }
    var x', v' := SetParts(Arr(xs), rel, R[p]), SetParts(Arr(items), rel, R[p]);
    if x'.Ok? {
      BrokenArray(x'.value.items, v'.value.items, S, ts, i, field);
    }
  }

  lemma BrokenArray(xs: seq<Value>, items: seq<Value>, R: Patch, ts: Path, i: nat, field: string)
    requires ts !in R && |xs| == |items| != 1 && i < |items| && Broken(xs[i], items[i], R, ts + [Decimal(i)], field)
    ensures Broken(Arr(xs), Arr(items), R, ts, field)
  {
  }

  /** With nothing left to write, a broken document does not mean what it stands for. */
  lemma {:induction false} BrokenDiffers(x: Value, v: Value, R: Patch, ts: Path, field: string)
    requires Broken(x, v, R, ts, field)
    ensures Normalize(x, field) != Normalize(v, field)
    decreases v
  {
    match v
    case Obj(m) =>
      if !x.Str? {
        var k :| k in m && k in x.members && Broken(x.members[k], m[k], R, ts + [k], k);
        BrokenDiffers(x.members[k], m[k], R, ts + [k], k);
        assert m != map[] && x.members != map[];
        assert Normalize(x, field).members[k] != Normalize(v, field).members[k];
      }
    case Arr(items) =>
      if |items| == 1 {
        BrokenDiffers(x, items[0], R, ts + [Decimal(0)], field);
      } else {
        var i :| 0 <= i < |items| && Broken(x.items[i], items[i], R, ts + [Decimal(i)], field);
        BrokenDiffers(x.items[i], items[i], R, ts + [Decimal(i)], field);
        assert Normalize(x, field).items[i] != Normalize(v, field).items[i];
      }
    case _ =>
  }

  /** Restoring a broken document fails, or gives something else than the source. */
  lemma {:induction false} RestoreBroken(x: Value, v: Value, rs: seq<Restoration>, i: nat)
    requires Separate(rs) && i <= |rs| && Fits(v, PatchFrom(rs, i), []) && Broken(x, v, PatchFrom(rs, i), [], "")
    ensures RestoreFrom(x, rs, i).Ok? ==>
              Normalize(RestoreFrom(x, rs, i).value, "") != Normalize(Overlaid(v, PatchFrom(rs, i), []), "")
    decreases |rs| - i
  {
    hide Broken, Overlay.Fits, Overlay.Overlaid, NonNested, Decode;
    var R := PatchFrom(rs, i);
    if i == |rs| {
      BrokenDiffers(x, v, R, [], "");
      ClearOverlay(v, R, []);
    } else {
      var p := Decode(rs[i].path);
      PatchNonNested(rs, i);
      assert [] + p == p;
      DropFirst(rs, i);
      SetOne(v, R, [], p);
      SetBroken(x, v, R, [], p, "");
      PointerIsParts(x, rs[i]);
      if SetParts(x, p, R[p]).Ok? {
        RestoreBroken(SetParts(x, p, R[p]).value, SetParts(v, p, R[p]).value, rs, i + 1);
      }
    }
  }

  // ---------- where it breaks ----------

  /** An object that is left with its text alone comes back as a string. */
  lemma {:induction false} AloneBreaks(out: Members, R: Patch, ts: Path, path: string, category: string, field: string)
    requires !TextFits(out) && SpellableNames(out) && SurfaceHere(out, path, category) && ts !in R
    ensures CanonItems(Obj(out)) == [CanonElement(Obj(out))] && Broken(CanonElement(Obj(out)), Obj(out), R, ts, field)
  {
    TextKeys();
    TextMember(out, path, category);
    hide CanonElement, CanonText, CanonItems, Collapse, HasElement, SurfaceHere, ValueText;
    forall k | k in out && k != "#text"
      ensures !IsAttributeKey(k) && CanonItems(out[k]) == []
    {
      SomeItem(out[k]);
    }
    assert CanonAttributes(out) == map[] && CanonChildren(out) == map[];
    hide IsAttributeKey, IsChildKey;
    CanonObject(out);
    OneElement(out);
  }

  lemma OneElement(m: Members)
    ensures CanonItems(Obj(m)) == [CanonElement(Obj(m))]
  {
  }

  /** A string with white space around it, or the empty one, comes back as another value. */
  lemma {:induction false} StringBreaks(v: Value, R: Patch, ts: Path, field: string)
    requires !ElementText(v) && field != "@uri" && ts !in R
    ensures CanonItems(v) == [CanonElement(v)] && Broken(CanonElement(v), v, R, ts, field)
  {
    hide Settled, ProjectText;
    ProjectTextSettles(v.value);
  }

  lemma {:induction false} AttributeShort(s: string)
    ensures |AttributeText(s)| <= |s|
  {
    PairShort(s);
    ReturnShort(ReplacePair(s, '\r', '\n', '\n'));
  }

  lemma {:induction false} PairShort(s: string)
    ensures |ReplacePair(s, '\r', '\n', '\n')| <= |s|
    decreases |s|
  {
    if s != "" {
      PairShort(s[1..]);
      if |s| >= 2 {
        PairShort(s[2..]);
      }
    }
  }

  lemma {:induction false} ReturnShort(s: string)
    ensures |ReplaceChar(s, '\r', "\n")| == |s|
  {
    if s != "" {
      ReturnShort(s[1..]);
    }
  }

  /** Normalizing a link tells two texts apart, unless the one ends in ".xml" and the other in ".json". */
  lemma LinksApart(t: string, u: string, field: string)
    requires Normalize(Str(t), field) == Normalize(Str(u), field)
    ensures t == u || (EndsWith(t, ".xml") && |u| == |t| + 1) || EndsWith(t, ".json")
  {
    var a, b := field == "@uri" && EndsWith(t, ".xml"), field == "@uri" && EndsWith(u, ".xml");
    if a && b {
      var x, y := t[..|t| - 4], u[..|u| - 4];
      assert (x + ".json")[..|x|] == x && (y + ".json")[..|y|] == y;
      assert t == x + ".xml" && u == y + ".xml";
    } else if a {
      assert u == t[..|t| - 4] + ".json";
    } else if b {
      assert t == u[..|u| - 4] + ".json" && t[|t| - 5..] == ".json";
    }
  }

  /** A null attribute, or one with a tab or a line end, comes back as another string. */
  lemma {:induction false} AttributeBreaks(k: string, v: Value, R: Patch, ts: Path, path: string, category: string)
    requires "@" <= k && !MemberStays(k, v) && !v.Obj? && !v.Arr? && MemberFits(k, v, path, category) && ts !in R
    ensures Broken(Str(AttributeText(ValueText(v))), v, R, ts, k)
  {
    if v.Str? {
      AttributeTextSettles(v.value);
      AttributeShort(v.value);
      hide AttributeText, OneLine;
      if Normalize(Str(AttributeText(v.value)), k) == Normalize(v, k) {
        LinksApart(v.value, AttributeText(v.value), k);
      }
    }
  }

  /** A broken member breaks its object, when that is not read back as a string. */
  lemma {:induction false} MemberBreaks(out: Members, R: Patch, ts: Path, k: string, field: string)
    requires ts !in R && "0" !in out && k in out && StaysElement(out)
    requires if IsAttributeKey(k) then Broken(Str(AttributeText(ValueText(out[k]))), out[k], R, ts + [k], k)
             else IsChildKey(k) && CanonItems(out[k]) != [] && Broken(Collapse(CanonItems(out[k])), out[k], R, ts + [k], k)
    ensures CanonItems(Obj(out)) == [CanonElement(Obj(out))] && Broken(CanonElement(Obj(out)), Obj(out), R, ts, field)
  {
    hide CanonElement, Collapse, Broken, CanonText, ValueText, AttributeText;
    OneElement(out);
    hide CanonItems;
    assert k in if IsAttributeKey(k) then CanonAttributes(out) else CanonChildren(out);
    StaysObject(out);
    CanonNames(out);
    MemberBack(out, k);
    BrokenObject(CanonElement(Obj(out)).members, out, R, ts, k, field);
  }

  lemma {:induction false} MemberBack(m: Members, k: string)
    requires StaysElement(m) && k in m
    requires IsAttributeKey(k) || (IsChildKey(k) && CanonItems(m[k]) != [])
    ensures CanonElement(Obj(m)).Obj? && k in CanonElement(Obj(m)).members
    ensures CanonElement(Obj(m)).members[k] ==
              if IsAttributeKey(k) then Str(AttributeText(ValueText(m[k]))) else Collapse(CanonItems(m[k]))
  {
    hide CanonElement, Collapse, CanonItems, ValueText, AttributeText;
    TextKeys();
    StaysObject(m);
    assert k in if IsAttributeKey(k) then CanonAttributes(m) else CanonChildren(m);
  }

  lemma {:induction false} ItemBreaks(outs: seq<Value>, R: Patch, ts: Path, i: nat, field: string)
    requires i < |outs| && ts !in R && forall j :: 0 <= j < |outs| ==> !outs[j].Arr?
    requires Broken(CanonElement(outs[i]), outs[i], R, ts + [Decimal(i)], field)
    ensures CanonItems(Arr(outs)) != [] && Broken(Collapse(CanonItems(Arr(outs))), Arr(outs), R, ts, field)
  {
    CanonEach(outs);
    hide CanonElement, CanonAll;
    assert CanonItems(Arr(outs)) == CanonAll(outs);
    if |outs| == 1 {
      assert i == 0;
    }
  }

  /** What holds of the projection of a flat source, whether or not its text stays. */
  ghost predicate Settling(v: Value, R: Patch, ts: Path, path: string, category: string) {
    Spellable(v) && OnSurface(v, path, category) && FlatKept(v, R, ts)
  }

  lemma {:induction false} SettlingMember(m: Members, k: string, R: Patch, ts: Path, path: string, category: string)
    requires Settling(Obj(m), R, ts, path, category) && ts !in R
    ensures SpellableNames(m) && SurfaceHere(m, path, category)
    ensures k in m ==> Settling(m[k], R, ts + [k], Join(path, Escape(k)), category) && MemberFits(k, m[k], path, category)
  {
    hide TextFits, Settled, MemberFits;
  }

  lemma {:induction false} SettlingItem(items: seq<Value>, i: nat, R: Patch, ts: Path, path: string, category: string)
    requires Settling(Arr(items), R, ts, path, category) && ts !in R && i < |items|
    ensures !items[i].Arr? && Settling(items[i], R, ts + [Decimal(i)], Join(path, Decimal(i)), category)
    ensures ts + [Decimal(i)] in R ==> items[i].Obj?
  {
    hide TextFits, SurfaceHere, SpellableNames;
  }

  /** Where text does not stay, the collapsed projection is broken. */
  lemma {:induction false} TextBreaks(v: Value, R: Patch, ts: Path, path: string, category: string, field: string)
    requires !TextKept(v, R, ts) && Settling(v, R, ts, path, category) && field != "@uri"
    ensures CanonItems(v) != [] && Broken(Collapse(CanonItems(v)), v, R, ts, field)
    ensures v.Obj? ==> CanonItems(v) == [CanonElement(v)]
    decreases v, 0
  {
    hide CanonElement, CanonItems, Broken, Settling, TextFits, MemberStays, ElementText;
    match v
    case Obj(m) =>
      SettlingMember(m, "", R, ts, path, category);
      if TextFits(m) {
        var k :| k in m && !(TextKept(m[k], R, ts + [k]) && (ts + [k] !in R ==> MemberStays(k, m[k])));
        FitsStays(m);
        SettlingMember(m, k, R, ts, path, category);
        MemberFailing(m, k, R, ts, path, category);
        MemberBreaks(m, R, ts, k, field);
      } else {
        AloneBreaks(m, R, ts, path, category, field);
      }
    case Arr(items) =>
      var i :| 0 <= i < |items| && !(TextKept(items[i], R, ts + [Decimal(i)]) && ElementText(items[i]));
      forall j | 0 <= j < |items|
        ensures !items[j].Arr?
      {
        SettlingItem(items, j, R, ts, path, category);
      }
      SettlingItem(items, i, R, ts, path, category);
      ItemFailing(items[i], R, ts + [Decimal(i)], Join(path, Decimal(i)), category, field);
      ItemBreaks(items, R, ts, i, field);
  }

  lemma {:induction false} MemberFailing(m: Members, k: string, R: Patch, ts: Path, path: string, category: string)
    requires k in m && !(TextKept(m[k], R, ts + [k]) && (ts + [k] !in R ==> MemberStays(k, m[k])))
    requires SpellableNames(m) && Settling(m[k], R, ts + [k], Join(path, Escape(k)), category) && MemberFits(k, m[k], path, category)
    ensures if IsAttributeKey(k) then Broken(Str(AttributeText(ValueText(m[k]))), m[k], R, ts + [k], k)
            else IsChildKey(k) && CanonItems(m[k]) != [] && Broken(Collapse(CanonItems(m[k])), m[k], R, ts + [k], k)
    decreases m[k], 1
  {
    hide CanonElement, CanonItems, Broken, Settling, TextFits, SpellableNames, MemberFits, AttributeText, ValueText, ElementText;
    AttributeKeys(k);
    TextKeys();
    var v := m[k];
    if !TextKept(v, R, ts + [k]) {
      ScalarMember(m, k);
      TextBreaks(v, R, ts + [k], Join(path, Escape(k)), category, k);
    } else if IsAttributeKey(k) {
      ScalarMember(m, k);
      AttributeBreaks(k, v, R, ts + [k], path, category);
    } else {
      EmptyString();
      StringBreaks(v, R, ts + [k], k);
    }
  }

  lemma EmptyString()
    ensures !ElementText(Str(""))
  {
  }

  lemma ScalarMember(m: Members, k: string)
    requires SpellableNames(m) && k in m
    ensures "@" <= k || k == "#text" ==> !m[k].Obj? && !m[k].Arr?
  {
  }

  lemma {:induction false} ItemFailing(v: Value, R: Patch, ts: Path, path: string, category: string, field: string)
    requires !(TextKept(v, R, ts) && ElementText(v)) && !v.Arr? && Settling(v, R, ts, path, category) && field != "@uri"
    requires v.Str? ==> ts !in R
    ensures CanonItems(v) == [CanonElement(v)] && Broken(CanonElement(v), v, R, ts, field)
    decreases v, 1
  {
    hide CanonElement, CanonItems, Broken, Settling, TextFits;
    if !TextKept(v, R, ts) {
      TextBreaks(v, R, ts, path, category, field);
    } else {
      StringBreaks(v, R, ts, field);
    }
  }

  // ---------- the whole path, exactly ----------

  /** For every flat source: the whole path gives back a document equal to the source up to normalization exactly when
      its text stays wherever the projection records nothing. */
  lemma {:induction false} RoundTripIff(source: Value, category: string, p: ProjectedDocument, root: string, n: Node,
                                        chunks: seq<seq<Event>>, tail: seq<Event>, letters: Letters)
    requires !Exposed(source, "", category) && Flat(source, "", category) && Projects(source, category, p)
    requires Valid(n) && !n.Items? && p.document == Obj(map[root := Erase(n)])
    requires Written(root, n, letters).Ok? && Reads(Written(root, n, letters).value, chunks) && Noise(tail)
    ensures Parsed(Flatten(chunks) + tail, letters).Ok?
    ensures var r := Recovered(Parsed(Flatten(chunks) + tail, letters).value, p.recovery);
      r.Ok? && SemanticDigest(r.value) == SemanticDigest(source) <==> TextStays(source, "", category)
  {
    hide Exposed, Flat, TextStays, Projects, CanonDocument, Written, Erase, Valid, Reads, Parsed, Noise, Restored, Spellable;
    ReadBack(root, n, chunks, tail, letters);
    if TextStays(source, "", category) {
      RoundTrip(source, category, p, root, n, chunks, tail, letters);
    } else {
      RootWritten(root, n, letters);
      ErasedElement(n);
      BrokenForGood(source, category, p, root, Erase(n));
    }
  }

  lemma {:induction false} BrokenForGood(source: Value, category: string, p: ProjectedDocument, root: string, v: Value)
    requires Flat(source, "", category) && Projects(source, category, p) && !TextStays(source, "", category)
    requires p.document == Obj(map[root := v]) && !v.Arr? && IsChildKey(root) && Spellable(p.document)
    ensures var r := Recovered(CanonDocument(root, v), p.recovery);
      r.Ok? ==> SemanticDigest(r.value) != SemanticDigest(source)
  {
    hide OnSurface, Flat, FlatKept, TextStays, TextKept, Alike, Remains, Tracks, Broken, Overlay.Fits, Overlay.Overlaid, Spellable,
      HasElement;
    var R := Fragments(p.recovery);
    TracksText(source, p.document, R, [], "", category);
    TracksFlat(source, p.document, R, [], "", category);
    TextBreaks(p.document, R, [], "", category, "");
    CanonRoot(root, v);
    assert Broken(CanonDocument(root, v), p.document, R, [], "");
    match p.recovery
    case None =>
      BrokenDiffers(CanonDocument(root, v), p.document, R, [], "");
    case Some(contract) =>
      RestoreBroken(CanonDocument(root, v), p.document, contract.restorations, 0);
  }

  lemma {:induction false} CanonRoot(root: string, v: Value)
    requires !v.Arr? && IsChildKey(root)
    ensures CanonElement(Obj(map[root := v])) == CanonDocument(root, v)
  {
    hide CanonElement;
    assert CanonItems(v) == [CanonElement(v)];
    var m: Members := map[root := v];
    hide CanonItems, IsChildKey, IsAttributeKey;
    assert m[root] == v;
    assert CanonChildren(m) == map[root := CanonElement(v)];
    assert CanonAttributes(m) == map[] && CanonText(m) == "";
    CanonObject(m);
    var children := map[root := CanonElement(v)];
    assert root in children;
    assert map[] + children == children;
    assert CanonElement(Obj(m)) == Obj(children);
  }

  /** Why arrays in arrays are left out: XML drops the inner brackets, so this one comes back as another value. */
  lemma {:induction false} NestedArrayIsFlattened(a: string, b: string, c: string)
    requires ElementText(Str(a)) && ElementText(Str(b)) && ElementText(Str(c))
    ensures var v := Arr([Arr([Str(a), Str(b)]), Arr([Str(c)])]);
            && CanonItems(v) == [Str(a), Str(b), Str(c)]
            && Normalize(Collapse(CanonItems(v)), "values") != Normalize(v, "values")
  {
    hide Settled, ProjectText;
    var first, second := [Str(a), Str(b)], [Str(c)];
    forall t | t in {a, b, c}
      ensures CanonItems(Str(t)) == [Str(t)]
    {
      ProjectTextSettles(t);
    }
    TwoItems(Str(a), Str(b));
    OneItem(Str(c));
    TwoItems(Arr(first), Arr(second));
    hide CanonItems;
    var v := Arr([Arr(first), Arr(second)]);
    assert Normalize(v, "values").items[0].Arr?;
    assert |Normalize(v, "values").items| == 2;
  }

  lemma OneItem(v: Value)
    ensures CanonItems(Arr([v])) == CanonItems(v)
  {
    hide CanonElement;
    assert [v][1..] == [];
    assert CanonAll([v]) == CanonItems(v) + CanonAll([]);
  }

  lemma TwoItems(v: Value, w: Value)
    ensures CanonItems(Arr([v, w])) == CanonItems(v) + CanonItems(w)
  {
    hide CanonElement;
    OneItem(w);
    assert [v, w][1..] == [w];
    assert CanonAll([v, w]) == CanonItems(v) + CanonAll([w]);
  }
}
