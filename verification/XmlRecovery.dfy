/** Restoring a document that came back from XML: singleton arrays are unwrapped, empty objects are null,
    and scalars are strings. */
module XmlRecovery {
  import opened Json
  import opened Pointer
  import opened XmlText
  import opened Overlay
  import opened Recovery
  import opened Steps
  import opened Format
  import opened XmlRoundTrip

  /** The members of a value that set_pointer may treat as an object. */
  function MembersOf(x: Value): map<string, Value> {
    if x.Obj? then x.members else map[]
  }

  /** `x` stands for `v` as far as the fragments at and below `ts` go: along their paths it has the collapsed
      shape of `v`, and everywhere else the two are equal up to normalization. */
  ghost predicate Stands(x: Value, v: Value, R: Patch, ts: Path, field: string)
    decreases v
  {
    if Clear(R, ts) then Normalize(x, field) == Normalize(v, field)
    else if ts in R then true
    else match v
      case Obj(m) =>
        (x.Null? || x.Obj?) && "0" !in m && "0" !in MembersOf(x)
        && (forall k :: k in MembersOf(x) && !(ts + [k] in R) ==> k in m)
        && (forall k :: k in m && !(ts + [k] in R) ==>
              k in MembersOf(x) && Stands(MembersOf(x)[k], m[k], R, ts + [k], k))
      case Arr(items) =>
        if |items| == 1 then
          items[0].Obj? && "0" !in items[0].members
          && (x.Null? || x.Obj?) && "0" !in MembersOf(x) && Stands(x, items[0], R, ts + [Decimal(0)], field)
        else
          x.Arr? && |x.items| == |items|
          && forall i :: 0 <= i < |items| ==> Stands(x.items[i], items[i], R, ts + [Decimal(i)], field)
      case _ => true
  }

  lemma {:induction false} AgreeClear(R: Patch, S: Patch, ts: Path)
    requires Agree(R, S, ts)
    ensures Clear(R, ts) <==> Clear(S, ts)
  {
  }

  lemma {:induction false} AgreeStands(x: Value, v: Value, R: Patch, S: Patch, ts: Path, field: string)
    requires Agree(R, S, ts) && Stands(x, v, R, ts, field)
    ensures Stands(x, v, S, ts, field)
    decreases v
  {
    AgreeClear(R, S, ts);
    AgreeHeads(R, S, ts);
    if !Clear(R, ts) && !(ts in R) {
      match v
      case Obj(m) =>
        forall k | k in m && !(ts + [k] in S)
          ensures k in MembersOf(x) && Stands(MembersOf(x)[k], m[k], S, ts + [k], k)
        {
          assert k !in Heads(S, ts);
          AgreeChild(R, S, ts, k);
          AgreeStands(MembersOf(x)[k], m[k], R, S, ts + [k], k);
        }
        forall k | k in MembersOf(x) && !(ts + [k] in S)
          ensures k in m
        {
          assert k !in Heads(S, ts);
        }
      case Arr(items) =>
        if |items| == 1 {
          AgreeChild(R, S, ts, Decimal(0));
          AgreeStands(x, items[0], R, S, ts + [Decimal(0)], field);
        } else {
          forall i | 0 <= i < |items|
            ensures Stands(x.items[i], items[i], S, ts + [Decimal(i)], field)
          {
            AgreeChild(R, S, ts, Decimal(i));
            AgreeStands(x.items[i], items[i], R, S, ts + [Decimal(i)], field);
          }
        }
      case _ =>
    }
  }

  /** Writing a fragment into the collapsed document does what writing it into the plain one does. */
  lemma {:induction false} SetCollapsed(x: Value, v: Value, R: Patch, ts: Path, rel: Path, field: string)
    requires NonNested(R) && ts + rel in R && Fits(v, R, ts) && Stands(x, v, R, ts, field)
    ensures SetParts(v, rel, R[ts + rel]).Ok? && SetParts(x, rel, R[ts + rel]).Ok?
    ensures Stands(SetParts(x, rel, R[ts + rel]).value, SetParts(v, rel, R[ts + rel]).value, R - {ts + rel}, ts, field)
    decreases |rel|, 1
  {
    var p := ts + rel;
    var S := R - {p};
    SetOne(v, R, ts, rel);
    if rel == [] {
      assert p == ts;
      assert Clear(S, ts);
    } else {
      ParentOfSplit(ts, rel);
      assert NextFits(v, p, ts);
      if v.Obj? {
        SetCollapsedMember(x, v.members, R, ts, rel, field);
      } else {
        SetCollapsedItem(x, v.items, R, ts, rel, field);
      }
    }
  }

  lemma {:induction false} SetCollapsedMember(x: Value, m: map<string, Value>, R: Patch, ts: Path, rel: Path, field: string)
    requires NonNested(R) && ts + rel in R && rel != [] && !(ts in R) && Fits(Obj(m), R, ts) && Stands(x, Obj(m), R, ts, field)
    ensures SetParts(Obj(m), rel, R[ts + rel]).Ok? && SetParts(x, rel, R[ts + rel]).Ok?
    ensures Stands(SetParts(x, rel, R[ts + rel]).value, SetParts(Obj(m), rel, R[ts + rel]).value, R - {ts + rel}, ts, field)
    decreases |rel|, 0
  {
    var p, k, rest := ts + rel, rel[0], rel[1..];
    var S, xm := R - {p}, MembersOf(x);
    ParentOfSplit(ts, rel);
    assert ts <= p;
    assert NextFits(Obj(m), p, ts);
    assert k != "0";
    var child, xchild := R[p], R[p];
    if rest == [] {
      assert p == ts + [k];
    } else {
      assert ts + [k] <= p && ts + [k] != p;
      SetCollapsed(xm[k], m[k], R, ts + [k], rest, k);
      child, xchild := SetParts(m[k], rest, R[p]).value, SetParts(xm[k], rest, R[p]).value;
    }
    assert SetParts(Obj(m), rel, R[p]) == Ok(Obj(m[k := child]));
    assert SetParts(x, rel, R[p]) == Ok(Obj(xm[k := xchild]));
    assert Stands(xchild, child, S, ts + [k], k) by {
      if rest == [] {
        assert Clear(S, ts + [k]);
      }
    }
    MembersStand(xm, m, R, ts, k, p, xchild, child, field);
  }

  lemma {:induction false} MembersStand(xm: map<string, Value>, m: map<string, Value>, R: Patch, ts: Path, k: string, p: Path,
                                        xchild: Value, child: Value, field: string)
    requires p in R && ts < p && p[|ts|] == k && !(ts in R) && k != "0" && "0" !in m && "0" !in xm
    requires forall j :: j in xm && !(ts + [j] in R) ==> j in m
    requires forall j :: j in m && !(ts + [j] in R) ==> j in xm && Stands(xm[j], m[j], R, ts + [j], j)
    requires Stands(xchild, child, R - {p}, ts + [k], k)
    ensures Stands(Obj(xm[k := xchild]), Obj(m[k := child]), R - {p}, ts, field)
  {
    var S, m', x' := R - {p}, m[k := child], xm[k := xchild];
    forall j | j != k
      ensures ts + [j] in R <==> ts + [j] in S
      ensures Agree(R, S, ts + [j])
    {
      AgreeSibling(R, p, ts, j);
      assert ts + [j] <= ts + [j];
    }
    forall j | j in m' && !(ts + [j] in S)
      ensures j in x' && Stands(x'[j], m'[j], S, ts + [j], j)
    {
      if j != k {
        AgreeStands(xm[j], m[j], R, S, ts + [j], j);
      }
    }
    if Clear(S, ts) {
      ClearMembers(x', m', S, ts, field);
    }
  }

  lemma {:induction false} ClearMembers(x: map<string, Value>, m: map<string, Value>, S: Patch, ts: Path, field: string)
    requires Clear(S, ts)
    requires forall j :: j in x && !(ts + [j] in S) ==> j in m
    requires forall j :: j in m && !(ts + [j] in S) ==> j in x && Stands(x[j], m[j], S, ts + [j], j)
    ensures Normalize(Obj(x), field) == Normalize(Obj(m), field)
  {
    ClearHeads(S, ts);
    forall j
      ensures j in x <==> j in m
      ensures j in m ==> Normalize(x[j], j) == Normalize(m[j], j)
    {
      assert j !in Heads(S, ts);
      ClearChild(S, ts, j);
    }
    SameNormal(x, m, field);
  }

  lemma {:induction false} SameNormal(x: map<string, Value>, m: map<string, Value>, field: string)
    requires x.Keys == m.Keys && forall j :: j in m ==> Normalize(x[j], j) == Normalize(m[j], j)
    ensures Normalize(Obj(x), field) == Normalize(Obj(m), field)
  {
    if m == map[] {
      assert x == map[];
    } else {
      var a, b := Normalize(Obj(x), field).members, Normalize(Obj(m), field).members;
      assert a.Keys == b.Keys;
    }
  }

  /** A fragment below an array goes through the index of an item. */
  lemma {:induction false} ItemRoute(items: seq<Value>, R: Patch, ts: Path, rel: Path) returns (n: nat)
    requires ts + rel in R && rel != [] && !(ts in R) && Fits(Arr(items), R, ts)
    ensures n < |items| && rel == [Decimal(n)] + rel[1..] && ts + rel == ts + [Decimal(n)] + rel[1..] && ts <= ts + rel
  {
    ParentOfSplit(ts, rel);
    assert NextFits(Arr(items), ts + rel, ts);
    n := ParseIndex(rel[0]).value;
  }

  lemma SingleGives(x: Value, item: Value, R: Patch, ts: Path, p: Path, field: string)
    requires Stands(x, Arr([item]), R, ts, field) && p in R && ts <= p && !(ts in R)
    ensures item.Obj? && "0" !in item.members && (x.Null? || x.Obj?) && "0" !in MembersOf(x)
    ensures Stands(x, item, R, ts + [Decimal(0)], field)
  {
    assert [item][0] == item;
  }

  lemma {:induction false} SetCollapsedItem(x: Value, items: seq<Value>, R: Patch, ts: Path, rel: Path, field: string)
    requires NonNested(R) && ts + rel in R && rel != [] && !(ts in R) && Fits(Arr(items), R, ts) && Stands(x, Arr(items), R, ts, field)
    ensures SetParts(Arr(items), rel, R[ts + rel]).Ok? && SetParts(x, rel, R[ts + rel]).Ok?
    ensures Stands(SetParts(x, rel, R[ts + rel]).value, SetParts(Arr(items), rel, R[ts + rel]).value, R - {ts + rel}, ts, field)
    decreases |rel|, 0
  {
    hide SetParts;
    var p, rest := ts + rel, rel[1..];
    var n := ItemRoute(items, R, ts, rel);
    hide ParseIndex, Decimal, Overlay.Fits, NonNested;
    if |items| == 1 {
      assert items == [items[0]];
      SingleGives(x, items[0], R, ts, p, field);
      hide Stands;
      SetCollapsedSingle(x, items[0], R, ts, rest, field);
      SetAt(items, 0, rel, R[p]);
    } else {
      hide Stands;
      SetCollapsedMany(x, items, n, R, ts, rest, field);
    }
  }

  lemma {:induction false} SetCollapsedMany(x: Value, items: seq<Value>, n: nat, R: Patch, ts: Path, rest: Path, field: string)
    requires NonNested(R) && ts + [Decimal(n)] + rest in R && !(ts in R) && Fits(Arr(items), R, ts)
    requires n < |items| != 1 && Stands(x, Arr(items), R, ts, field)
    ensures var p, rel := ts + [Decimal(n)] + rest, [Decimal(n)] + rest;
      SetParts(Arr(items), rel, R[p]).Ok? && SetParts(x, rel, R[p]).Ok?
      && Stands(SetParts(x, rel, R[p]).value, SetParts(Arr(items), rel, R[p]).value, R - {p}, ts, field)
    decreases |rest|, 2
  {
    hide SetParts;
    var p, rel := ts + [Decimal(n)] + rest, [Decimal(n)] + rest;
    assert ts <= p && rel[1..] == rest;
    assert !Clear(R, ts);
    SetCollapsed(x.items[n], items[n], R, ts + [Decimal(n)], rest, field);
    var x', c := SetParts(x.items[n], rest, R[p]).value, SetParts(items[n], rest, R[p]).value;
    SetAt(items, n, rel, R[p]);
    SetAt(x.items, n, rel, R[p]);
    ItemsStand(x.items, items, R, ts, n, p, x', c, field);
  }

  lemma {:induction false} SetAt(items: seq<Value>, n: nat, rel: Path, x: Value)
    requires n < |items| && rel != [] && rel[0] == Decimal(n) && SetParts(items[n], rel[1..], x).Ok?
    ensures SetParts(Arr(items), rel, x) == Ok(Arr(items[n := SetParts(items[n], rel[1..], x).value]))
    ensures |items| == 1 ==> items[n := SetParts(items[n], rel[1..], x).value] == [SetParts(items[n], rel[1..], x).value]
  {
    ParseDecimal(n);
  }

  /** On an object without a member "0", the index "0" is skipped. */
  lemma {:induction false} SkipZero(x: Value, rest: Path, value: Value)
    requires (x.Null? || x.Obj?) && "0" !in MembersOf(x)
    ensures SetParts(x, [Decimal(0)] + rest, value) == SetParts(x, rest, value)
  {
    assert Decimal(0) == "0";
    assert ([Decimal(0)] + rest)[1..] == rest;
  }

  /** Through the index "0" of a singleton array whose brackets XML has dropped. */
  lemma {:induction false} SetCollapsedSingle(x: Value, item: Value, R: Patch, ts: Path, rest: Path, field: string)
    requires NonNested(R) && ts + [Decimal(0)] + rest in R && !(ts in R) && Fits(Arr([item]), R, ts)
    requires item.Obj? && "0" !in item.members && (x.Null? || x.Obj?) && "0" !in MembersOf(x)
    requires Stands(x, item, R, ts + [Decimal(0)], field)
    ensures var p := ts + [Decimal(0)] + rest;
      SetParts(item, rest, R[p]).Ok? && SetParts(x, rest, R[p]).Ok?
      && SetParts(x, [Decimal(0)] + rest, R[p]) == SetParts(x, rest, R[p])
      && Stands(SetParts(x, rest, R[p]).value, Arr([SetParts(item, rest, R[p]).value]), R - {p}, ts, field)
    decreases |rest|, 2
  {
    hide Stands, MembersOf, SetParts;
    var zero := ts + [Decimal(0)];
    var p := zero + rest;
    var S := R - {p};
    SkipZero(x, rest, R[p]);
    assert Fits(item, R, zero) by { assert [item][0] == item; }
    hide Overlay.Fits, NonNested;
    SetCollapsed(x, item, R, zero, rest, field);
    var x', c := SetParts(x, rest, R[p]).value, SetParts(item, rest, R[p]).value;
    if rest != [] {
      KeepsNames(x, item, R, zero, rest);
    }
    if rest == [] {
      assert p == zero;
      OnlyIndexZero(item, R, ts);
    }
    SingleStands(x', c, S, ts, field);
  }

  lemma {:induction false} SingleStands(x: Value, c: Value, S: Patch, ts: Path, field: string)
    requires Stands(x, c, S, ts + [Decimal(0)], field)
    requires Clear(S, ts) || (x.Obj? && "0" !in x.members && c.Obj? && "0" !in c.members)
    ensures Stands(x, Arr([c]), S, ts, field)
  {
    assert [c][0] == c;
    if Clear(S, ts) {
      ClearChild(S, ts, Decimal(0));
    }
  }

  lemma {:induction false} OnlyIndexZero(item: Value, R: Patch, ts: Path)
    requires NonNested(R) && ts + [Decimal(0)] in R && !(ts in R) && Fits(Arr([item]), R, ts)
    ensures Clear(R - {ts + [Decimal(0)]}, ts)
  {
    var zero := ts + [Decimal(0)];
    assert zero[|ts|] == Decimal(0) && ts < zero;
    forall q | q in R - {zero}
      ensures !(ts <= q)
    {
      assert ts <= q && q != ts ==> ts < q;
      ShortPrefix(ts, zero, q);
    }
  }

  /** Writing below an object leaves an object, still without a member named "0". */
  lemma {:induction false} KeepsNames(x: Value, item: Value, R: Patch, ts: Path, rest: Path)
    requires NonNested(R) && ts + rest in R && rest != [] && Fits(item, R, ts)
    requires item.Obj? && "0" !in item.members && (x.Null? || x.Obj?) && "0" !in MembersOf(x)
    requires SetParts(item, rest, R[ts + rest]).Ok? && SetParts(x, rest, R[ts + rest]).Ok?
    ensures var x', c := SetParts(x, rest, R[ts + rest]).value, SetParts(item, rest, R[ts + rest]).value;
      x'.Obj? && "0" !in x'.members && c.Obj? && "0" !in c.members
  {
    ParentOfSplit(ts, rest);
    assert ts <= ts + rest && ts != ts + rest;
    assert NextFits(item, ts + rest, ts);
    assert rest[0] != "0";
  }

  lemma {:induction false} ItemsStand(xs: seq<Value>, items: seq<Value>, R: Patch, ts: Path, n: nat, p: Path,
                                      x: Value, c: Value, field: string)
    requires p in R && ts < p && n < |items| && p[|ts|] == Decimal(n) && !(ts in R)
    requires |xs| == |items| != 1
    requires forall i :: 0 <= i < |items| ==> Stands(xs[i], items[i], R, ts + [Decimal(i)], field)
    requires Stands(x, c, R - {p}, ts + [Decimal(n)], field)
    ensures Stands(Arr(xs[n := x]), Arr(items[n := c]), R - {p}, ts, field)
  {
    var S, xs', items' := R - {p}, xs[n := x], items[n := c];
    forall i | 0 <= i < |items|
      ensures Stands(xs'[i], items'[i], S, ts + [Decimal(i)], field)
    {
      if i != n {
        ParseDecimal(i);
        ParseDecimal(n);
        AgreeSibling(R, p, ts, Decimal(i));
        AgreeStands(xs[i], items[i], R, S, ts + [Decimal(i)], field);
      }
    }
    if Clear(S, ts) {
      forall i | 0 <= i < |items|
        ensures Normalize(xs'[i], field) == Normalize(items'[i], field)
      {
        ClearChild(S, ts, Decimal(i));
        assert Stands(xs'[i], items'[i], S, ts + [Decimal(i)], field);
      }
      SameNormalItems(xs', items', field);
    }
  }

  lemma {:induction false} SameNormalItems(xs: seq<Value>, items: seq<Value>, field: string)
    requires |xs| == |items| && forall i :: 0 <= i < |items| ==> Normalize(xs[i], field) == Normalize(items[i], field)
    ensures Normalize(Arr(xs), field) == Normalize(Arr(items), field)
  {
    if |items| != 1 {
      var a, b := Normalize(Arr(xs), field).items, Normalize(Arr(items), field).items;
      assert |a| == |b| && forall i :: 0 <= i < |a| ==> a[i] == b[i];
    }
  }

  lemma {:induction false} RestoreCollapsedFrom(x: Value, v: Value, rs: seq<Restoration>, i: nat)
    requires Separate(rs) && i <= |rs| && Fits(v, PatchFrom(rs, i), []) && Stands(x, v, PatchFrom(rs, i), [], "")
    ensures RestoreFrom(x, rs, i).Ok?
    ensures Normalize(RestoreFrom(x, rs, i).value, "") == Normalize(Overlaid(v, PatchFrom(rs, i), []), "")
    ensures x.Obj? && v.Obj? && ([] in PatchFrom(rs, i) ==> PatchFrom(rs, i)[[]].Obj?) ==> RestoreFrom(x, rs, i).value.Obj?
    decreases |rs| - i
  {
    hide Stands, Overlay.Fits, Overlay.Overlaid, NonNested, Decode;
    var R := PatchFrom(rs, i);
    if i == |rs| {
      NothingLeft(x, v, R);
    } else {
      var p := Decode(rs[i].path);
      PatchNonNested(rs, i);
      assert [] + p == p;
      DropFirst(rs, i);
      SetOne(v, R, [], p);
      SetCollapsed(x, v, R, [], p, "");
      PointerIsParts(x, rs[i]);
      StaysRoot(x, v, R, p);
      RestoreCollapsedFrom(SetParts(x, p, R[p]).value, SetParts(v, p, R[p]).value, rs, i + 1);
    }
  }

  /** Writing into an object leaves an object. */
  lemma {:induction false} StaysRoot(x: Value, v: Value, R: Patch, p: Path)
    requires NonNested(R) && p in R && Fits(v, R, []) && Stands(x, v, R, [], "")
    requires SetParts(v, p, R[p]).Ok? && SetParts(x, p, R[p]).Ok?
    ensures x.Obj? && v.Obj? && ([] in R ==> R[[]].Obj?) ==>
      SetParts(x, p, R[p]).value.Obj? && SetParts(v, p, R[p]).value.Obj?
  {
    if x.Obj? && v.Obj? && p != [] {
      assert [] <= p && [] < p;
      assert NextFits(v, p, []);
    }
  }

  lemma {:induction false} NothingLeft(x: Value, v: Value, R: Patch)
    requires R == map[] && Stands(x, v, R, [], "")
    ensures Normalize(x, "") == Normalize(Overlaid(v, R, []), "")
  {
    ClearOverlay(v, R, []);
  }

  lemma {:induction false} PointerIsParts(x: Value, r: Restoration)
    ensures SetPointer(x, r.path, r.original) == SetParts(x, Decode(r.path), r.original)
  {
    if r.path == "" {
      assert Decode("") == [];
    }
  }

  /** Restoring the collapsed document never fails, and gives the restored plain document up to normalization. */
  lemma {:induction false} RestoreCollapsed(x: Value, v: Value, rs: seq<Restoration>)
    requires Separate(rs) && Fits(v, PatchOf(rs), []) && Stands(x, v, PatchOf(rs), [], "")
    ensures RestoreFrom(x, rs, 0).Ok?
    ensures Normalize(RestoreFrom(x, rs, 0).value, "") == Normalize(Overlaid(v, PatchOf(rs), []), "")
    ensures x.Obj? && v.Obj? && Overlaid(v, PatchOf(rs), []).Obj? ==> RestoreFrom(x, rs, 0).value.Obj?
  {
    RestoreCollapsedFrom(x, v, rs, 0);
  }
}
