/** Laying recorded fragments over a document: set_pointer, and what a whole list of fragments means. */
module Overlay {
  import opened Json
  import opened Pointer

  type Path = seq<string>

  /** Recorded originals by the path they belong to. */
  type Patch = map<Path, Value>

  datatype SetError = InvalidPath

  /** set_pointer_parts: a null becomes an object, "0" is skipped on an object without that member,
      and the last part replaces or inserts. */
  function SetParts(v: Value, parts: Path, x: Value): Result<Value, SetError>
    decreases |parts|
  {
    if parts == [] then Ok(x)
    else
      var part, rest := parts[0], parts[1..];
      var cur := if v.Null? then Obj(map[]) else v;
      match cur
      case Obj(m) =>
        if part == "0" && part !in m then SetParts(cur, rest, x)
        else if rest == [] then Ok(Obj(m[part := x]))
        else (
          match SetParts(if part in m then m[part] else Obj(map[]), rest, x)
          case Ok(child) => Ok(Obj(m[part := child]))
          case Err(e) => Err(e))
      case Arr(items) => (
        match ParseIndex(part)
        case Some(i) =>
          if i < |items| then (
            match SetParts(items[i], rest, x)
            case Ok(child) => Ok(Arr(items[i := child]))
            case Err(e) => Err(e))
          else Err(InvalidPath)
        case None => Err(InvalidPath))
      case _ => Err(InvalidPath)
  }

  function SetPointer(root: Value, pointer: string, x: Value): Result<Value, SetError> {
    if pointer == "" then Ok(x) else SetParts(root, Decode(pointer), x)
  }

  /** The parts lead into a scalar other than null, or into an array under something that is no index of it. */
  predicate Blocked(v: Value, parts: Path)
    decreases |parts|
  {
    parts != [] &&
    match v
    case Null => false
    case Obj(m) => if parts[0] in m then Blocked(m[parts[0]], parts[1..]) else parts[0] == "0" && Blocked(v, parts[1..])
    case Arr(items) =>
      var i := ParseIndex(parts[0]);
      i.None? || i.value >= |items| || Blocked(items[i.value], parts[1..])
    case _ => true
  }

  /** In an object without members every path can be made. */
  lemma {:induction false} SetInEmpty(parts: Path, x: Value)
    ensures SetParts(Obj(map[]), parts, x).Ok? && !Blocked(Obj(map[]), parts)
    decreases |parts|
  {
    if parts != [] {
      SetInEmpty(parts[1..], x);
    }
  }

  /** Writing below a value fails exactly when the parts are blocked in it. */
  lemma {:induction false} SetFailsIff(v: Value, parts: Path, x: Value)
    ensures SetParts(v, parts, x).Err? <==> Blocked(v, parts)
    decreases |parts|
  {
    if parts != [] {
      var part, rest := parts[0], parts[1..];
      SetInEmpty(parts, x);
      SetInEmpty(rest, x);
      hide ParseIndex;
      match v
      case Obj(m) =>
        SetFailsIff(if part in m then m[part] else v, rest, x);
      case Arr(items) =>
        var i := ParseIndex(part);
        if i.Some? && i.value < |items| {
          SetFailsIff(items[i.value], rest, x);
        }
      case _ =>
    }
  }

  // ---------- what a patch means ----------

  ghost predicate NonNested(R: Patch) {
    forall p, q :: p in R && q in R && p <= q ==> p == q
  }

  /** No fragment is recorded at or below `ts`. */
  ghost predicate Clear(R: Patch, ts: Path) {
    forall p :: p in R ==> !(ts <= p)
  }

  /** Some strict ancestor of `ts` is recorded. */
  ghost predicate Covered(R: Patch, ts: Path) {
    exists p :: p in R && p < ts
  }

  /** Member names recorded directly below `ts`. */
  ghost function Heads(R: Patch, ts: Path): (hs: set<string>)
    ensures forall k :: k in hs <==> ts + [k] in R
  {
    var hs := set p | p in R && |p| == |ts| + 1 && ts <= p :: p[|ts|];
    assert forall k :: k in hs <==> ts + [k] in R by {
      forall k
        ensures k in hs <==> ts + [k] in R
      {
        if k in hs {
          var p :| p in R && |p| == |ts| + 1 && ts <= p && p[|ts|] == k;
          assert p == ts + [k];
        }
        if ts + [k] in R {
          assert (ts + [k])[|ts|] == k;
        }
      }
    }
    hs
  }

  /** The document with every fragment at or below `ts` put back, whatever the order they are written in. */
  ghost function Overlaid(v: Value, R: Patch, ts: Path): Value
    decreases v
  {
    if ts in R then R[ts]
    else match v
      case Obj(m) =>
        Obj(map k | k in m.Keys + Heads(R, ts) :: if k in m then Overlaid(m[k], R, ts + [k]) else R[ts + [k]])
      case Arr(items) =>
        Arr(seq(|items|, i requires 0 <= i < |items| => Overlaid(items[i], R, ts + [Decimal(i)])))
      case _ => v
  }

  /** Fragment `p` can still be reached from a value at `ts`: its next token is a present member, the index of an
      item (of an object, when the fragment is the whole item), or it is the last one and names a member other
      than "0". */
  ghost predicate NextFits(v: Value, p: Path, ts: Path)
    requires ts < p
  {
    var k := p[|ts|];
    match v
    case Obj(m) => k in m || (|p| == |ts| + 1 && k != "0")
    case Arr(items) =>
      ParseIndex(k).Some? && ParseIndex(k).value < |items| && k == Decimal(ParseIndex(k).value)
      && (|p| == |ts| + 1 ==> items[ParseIndex(k).value].Obj?)
    case _ => false
  }

  /** Every fragment at or below `ts` still has its place in `v`. */
  ghost predicate Fits(v: Value, R: Patch, ts: Path)
    decreases v
  {
    ts in R
    || ((forall p :: p in R && ts < p ==> NextFits(v, p, ts))
        && match v
           case Obj(m) => forall k :: k in m ==> Fits(m[k], R, ts + [k])
           case Arr(items) => forall i :: 0 <= i < |items| ==> Fits(items[i], R, ts + [Decimal(i)])
           case _ => true)
  }

  /** Two patches agree at and below `ts`. */
  ghost predicate Agree(R: Patch, S: Patch, ts: Path) {
    forall p :: ts <= p ==> (p in R <==> p in S) && (p in R ==> R[p] == S[p])
  }

  /** Two patches agree everywhere else. */
  ghost predicate AgreeOutside(R: Patch, S: Patch, ts: Path) {
    forall p :: !(ts <= p) ==> (p in R <==> p in S) && (p in R ==> R[p] == S[p])
  }

  lemma {:induction false} ClearChild(R: Patch, ts: Path, k: string)
    requires Clear(R, ts)
    ensures Clear(R, ts + [k])
  {
    forall p | p in R
      ensures !(ts + [k] <= p)
    {
      assert ts + [k] <= p ==> ts <= p;
    }
  }

  /** What an overlaid object holds under one member name. */
  ghost function Slot(m: map<string, Value>, R: Patch, ts: Path, k: string): Value
    requires k in m || ts + [k] in R
  {
    if k in m then Overlaid(m[k], R, ts + [k]) else R[ts + [k]]
  }

  lemma {:induction false} OverlaidObject(m: map<string, Value>, R: Patch, ts: Path)
    requires ts !in R
    ensures var o := Overlaid(Obj(m), R, ts);
            && o.Obj? && o.members.Keys == m.Keys + Heads(R, ts)
            && forall k :: k in o.members ==> o.members[k] == Slot(m, R, ts, k)
  {
  }

  lemma {:induction false} SameObject(m: map<string, Value>, R: Patch, n: map<string, Value>, S: Patch, ts: Path)
    requires ts !in R && ts !in S
    requires m.Keys + Heads(R, ts) == n.Keys + Heads(S, ts)
    requires forall k :: k in m.Keys + Heads(R, ts) ==> Slot(m, R, ts, k) == Slot(n, S, ts, k)
    ensures Overlaid(Obj(m), R, ts) == Overlaid(Obj(n), S, ts)
  {
    OverlaidObject(m, R, ts);
    OverlaidObject(n, S, ts);
    hide Overlaid, Slot;
    assert Overlaid(Obj(m), R, ts).members == Overlaid(Obj(n), S, ts).members;
  }

  lemma {:induction false} PlainObject(m: map<string, Value>, R: Patch, ts: Path)
    requires ts !in R && Heads(R, ts) == {}
    requires forall k :: k in m ==> Overlaid(m[k], R, ts + [k]) == m[k]
    ensures Overlaid(Obj(m), R, ts) == Obj(m)
  {
    var o := Overlaid(Obj(m), R, ts).members;
    assert o.Keys == m.Keys;
    assert o == m;
  }

  lemma {:induction false} ClearHeads(R: Patch, ts: Path)
    requires Clear(R, ts)
    ensures Heads(R, ts) == {} && ts !in R
    ensures forall p :: p in R ==> !(ts < p)
  {
    forall k
      ensures k !in Heads(R, ts)
    {
      assert ts <= ts + [k];
    }
  }

  lemma {:induction false} ClearOverlay(v: Value, R: Patch, ts: Path)
    requires Clear(R, ts)
    ensures Overlaid(v, R, ts) == v
    ensures Fits(v, R, ts)
  {
    ClearHeads(R, ts);
    match v
    case Obj(m) =>
      forall k | k in m
        ensures Overlaid(m[k], R, ts + [k]) == m[k] && Fits(m[k], R, ts + [k])
      {
        ClearChild(R, ts, k);
        ClearOverlay(m[k], R, ts + [k]);
      }
      PlainObject(m, R, ts);
    case Arr(items) =>
      forall i | 0 <= i < |items|
        ensures Overlaid(items[i], R, ts + [Decimal(i)]) == items[i] && Fits(items[i], R, ts + [Decimal(i)])
      {
        ClearChild(R, ts, Decimal(i));
        ClearOverlay(items[i], R, ts + [Decimal(i)]);
      }
    case _ =>
  }

  lemma {:induction false} AgreeChild(R: Patch, S: Patch, ts: Path, k: string)
    requires Agree(R, S, ts)
    ensures Agree(R, S, ts + [k])
  {
    forall p | ts + [k] <= p
      ensures (p in R <==> p in S) && (p in R ==> R[p] == S[p])
    {
      assert ts <= p;
    }
  }

  lemma {:induction false} AgreeHeads(R: Patch, S: Patch, ts: Path)
    requires Agree(R, S, ts)
    ensures Heads(R, ts) == Heads(S, ts) && (ts in R <==> ts in S)
    ensures forall k :: k in Heads(R, ts) ==> R[ts + [k]] == S[ts + [k]]
  {
    assert ts <= ts;
    forall k
      ensures k in Heads(R, ts) <==> k in Heads(S, ts)
      ensures k in Heads(R, ts) ==> R[ts + [k]] == S[ts + [k]]
    {
      assert ts <= ts + [k];
    }
  }

  /** The meaning of a patch below `ts` depends on nothing recorded elsewhere. */
  lemma {:induction false} AgreeOverlay(v: Value, R: Patch, S: Patch, ts: Path)
    requires Agree(R, S, ts)
    ensures Overlaid(v, R, ts) == Overlaid(v, S, ts)
  {
    AgreeHeads(R, S, ts);
    if ts in R {
      assert ts <= ts;
    } else {
      match v
      case Obj(m) =>
        forall k | k in m.Keys + Heads(R, ts)
          ensures Slot(m, R, ts, k) == Slot(m, S, ts, k)
        {
          if k in m {
            AgreeChild(R, S, ts, k);
            AgreeOverlay(m[k], R, S, ts + [k]);
          }
        }
        SameObject(m, R, m, S, ts);
      case Arr(items) =>
        forall i | 0 <= i < |items|
          ensures Overlaid(items[i], R, ts + [Decimal(i)]) == Overlaid(items[i], S, ts + [Decimal(i)])
        {
          AgreeChild(R, S, ts, Decimal(i));
          AgreeOverlay(items[i], R, S, ts + [Decimal(i)]);
        }
      case _ =>
    }
  }

  lemma {:induction false} AgreeFits(v: Value, R: Patch, S: Patch, ts: Path)
    requires Agree(R, S, ts) && Fits(v, R, ts)
    ensures Fits(v, S, ts)
  {
    AgreeHeads(R, S, ts);
    if ts !in R {
      forall p | p in S && ts < p
        ensures NextFits(v, p, ts)
      {
        assert ts <= p;
      }
      match v
      case Obj(m) =>
        forall k | k in m
          ensures Fits(m[k], S, ts + [k])
        {
          AgreeChild(R, S, ts, k);
          AgreeFits(m[k], R, S, ts + [k]);
        }
      case Arr(items) =>
        forall i | 0 <= i < |items|
          ensures Fits(items[i], S, ts + [Decimal(i)])
        {
          AgreeChild(R, S, ts, Decimal(i));
          AgreeFits(items[i], R, S, ts + [Decimal(i)]);
        }
      case _ =>
    }
  }

  // ---------- writing one fragment ----------

  lemma {:induction false} ParentOfSplit(ts: Path, rel: Path)
    requires rel != []
    ensures ts + rel == ts + [rel[0]] + rel[1..]
    ensures ts < ts + rel && (ts + rel)[|ts|] == rel[0]
  {
  }

  /** Removing one path below a child of `ts` changes nothing below the other children. */
  lemma {:induction false} AgreeSibling(R: Patch, p: Path, ts: Path, k: string)
    requires p in R && ts < p && p[|ts|] != k
    ensures Agree(R, R - {p}, ts + [k])
  {
    forall q | ts + [k] <= q
      ensures (q in R <==> q in R - {p}) && (q in R ==> R[q] == (R - {p})[q])
    {
      assert q[|ts|] == k;
    }
  }

  /** Writing one recorded fragment through its path succeeds, and leaves the rest of the patch to do:
      it still fits, and laying it over gives the same document. */
  lemma {:induction false} SetOne(v: Value, R: Patch, ts: Path, rel: Path)
    requires NonNested(R) && ts + rel in R && Fits(v, R, ts)
    ensures SetParts(v, rel, R[ts + rel]).Ok?
    ensures Fits(SetParts(v, rel, R[ts + rel]).value, R - {ts + rel}, ts)
    ensures Overlaid(SetParts(v, rel, R[ts + rel]).value, R - {ts + rel}, ts) == Overlaid(v, R, ts)
    decreases |rel|
  {
    var p := ts + rel;
    var x, S := R[p], R - {p};
    if rel == [] {
      assert p == ts;
      assert Clear(S, ts);
      ClearOverlay(x, S, ts);
    } else {
      var k, rest := rel[0], rel[1..];
      ParentOfSplit(ts, rel);
      assert ts !in R;
      assert NextFits(v, p, ts);
      var v' := SetParts(v, rel, x);
      if v.Obj? {
        SetOneMember(v, R, ts, rel);
      } else {
        SetOneItem(v, R, ts, rel);
      }
    }
  }

  lemma {:induction false} SetOneMember(v: Value, R: Patch, ts: Path, rel: Path)
    requires NonNested(R) && ts + rel in R && Fits(v, R, ts) && rel != [] && ts !in R && v.Obj?
    ensures SetParts(v, rel, R[ts + rel]).Ok?
    ensures Fits(SetParts(v, rel, R[ts + rel]).value, R - {ts + rel}, ts)
    ensures Overlaid(SetParts(v, rel, R[ts + rel]).value, R - {ts + rel}, ts) == Overlaid(v, R, ts)
    decreases |rel|, 0
  {
    var p := ts + rel;
    var x, S, m := R[p], R - {p}, v.members;
    var k, rest := rel[0], rel[1..];
    ParentOfSplit(ts, rel);
    assert NextFits(v, p, ts);
    var child;
    if k in m {
      SetOne(m[k], R, ts + [k], rest);
      child := SetParts(m[k], rest, x).value;
    } else {
      assert rest == [];
      child := x;
      assert p == ts + [k];
      assert Clear(S, ts + [k]);
      ClearOverlay(x, S, ts + [k]);
    }
    var m' := m[k := child];
    assert SetParts(v, rel, x) == Ok(Obj(m'));
    forall q | q in S && ts < q
      ensures NextFits(Obj(m'), q, ts)
    {
      assert NextFits(v, q, ts);
    }
    MemberWritten(m, R, ts, k, p, child);
  }

  /** Putting one member in place, given that the member itself came out right. */
  lemma {:induction false} MemberWritten(m: map<string, Value>, R: Patch, ts: Path, k: string, p: Path, child: Value)
    requires p in R && ts !in R && ts < p && p[|ts|] == k
    requires k in m || p == ts + [k]
    requires forall j :: j in m && j != k ==> Fits(m[j], R, ts + [j])
    requires Fits(child, R - {p}, ts + [k])
    requires Overlaid(child, R - {p}, ts + [k]) == Slot(m, R, ts, k)
    ensures forall j :: j in m[k := child] ==> Fits(m[k := child][j], R - {p}, ts + [j])
    ensures Overlaid(Obj(m[k := child]), R - {p}, ts) == Overlaid(Obj(m), R, ts)
  {
    var S, m' := R - {p}, m[k := child];
    forall j | j in m'
      ensures Fits(m'[j], S, ts + [j])
    {
      if j != k {
        AgreeSibling(R, p, ts, j);
        AgreeFits(m[j], R, S, ts + [j]);
      }
    }
    assert forall j :: j in Heads(R, ts) && j != k ==> j in Heads(S, ts) by {
      forall j | j in Heads(R, ts) && j != k
        ensures j in Heads(S, ts)
      {
        assert (ts + [j])[|ts|] == j;
      }
    }
    assert m'.Keys + Heads(S, ts) == m.Keys + Heads(R, ts);
    forall j | j in m'.Keys + Heads(S, ts)
      ensures Slot(m', S, ts, j) == Slot(m, R, ts, j)
    {
      if j != k && j in m {
        AgreeSibling(R, p, ts, j);
        AgreeOverlay(m[j], R, S, ts + [j]);
      }
    }
    SameObject(m', S, m, R, ts);
  }

  lemma {:induction false} SetOneItem(v: Value, R: Patch, ts: Path, rel: Path)
    requires NonNested(R) && ts + rel in R && Fits(v, R, ts) && rel != [] && ts !in R && v.Arr?
    ensures SetParts(v, rel, R[ts + rel]).Ok?
    ensures Fits(SetParts(v, rel, R[ts + rel]).value, R - {ts + rel}, ts)
    ensures Overlaid(SetParts(v, rel, R[ts + rel]).value, R - {ts + rel}, ts) == Overlaid(v, R, ts)
    decreases |rel|, 0
  {
    var p := ts + rel;
    var x, S, items := R[p], R - {p}, v.items;
    var k, rest := rel[0], rel[1..];
    ParentOfSplit(ts, rel);
    assert NextFits(v, p, ts);
    var n := ParseIndex(k).value;
    SetOne(items[n], R, ts + [k], rest);
    var items' := items[n := SetParts(items[n], rest, x).value];
    assert SetParts(v, rel, x) == Ok(Arr(items'));
    SetItemNext(items, n, items'[n], R, p, ts);
    hide SetParts, Overlaid, Fits, NextFits, Decimal, ParseIndex, NonNested;
    forall i | 0 <= i < |items|
      ensures Fits(items'[i], S, ts + [Decimal(i)])
      ensures Overlaid(items'[i], S, ts + [Decimal(i)]) == Overlaid(items[i], R, ts + [Decimal(i)])
    {
      if i != n {
        ItemFits(items, R, ts, i);
        OtherItem(items[i], R, p, ts, n, i);
      }
    }
    SameItems(items, items', R, S, ts);
  }

  lemma ItemFits(items: seq<Value>, R: Patch, ts: Path, i: nat)
    requires Fits(Arr(items), R, ts) && ts !in R && i < |items|
    ensures Fits(items[i], R, ts + [Decimal(i)])
  {
  }

  lemma {:induction false} OtherItem(item: Value, R: Patch, p: Path, ts: Path, n: nat, i: nat)
    requires p in R && ts < p && p[|ts|] == Decimal(n) && i != n && Fits(item, R, ts + [Decimal(i)])
    ensures Fits(item, R - {p}, ts + [Decimal(i)])
    ensures Overlaid(item, R - {p}, ts + [Decimal(i)]) == Overlaid(item, R, ts + [Decimal(i)])
  {
    ParseDecimal(i);
    ParseDecimal(n);
    hide Overlaid, Fits, Decimal, ParseIndex;
    AgreeSibling(R, p, ts, Decimal(i));
    AgreeOverlay(item, R, R - {p}, ts + [Decimal(i)]);
    AgreeFits(item, R, R - {p}, ts + [Decimal(i)]);
  }

  lemma {:induction false} SameItems(items: seq<Value>, items': seq<Value>, R: Patch, S: Patch, ts: Path)
    requires ts !in R && ts !in S && |items'| == |items|
    requires forall q :: q in S && ts < q ==> NextFits(Arr(items'), q, ts)
    requires forall i :: 0 <= i < |items| ==> Fits(items'[i], S, ts + [Decimal(i)])
    requires forall i :: 0 <= i < |items| ==> Overlaid(items'[i], S, ts + [Decimal(i)]) == Overlaid(items[i], R, ts + [Decimal(i)])
    ensures Fits(Arr(items'), S, ts) && Overlaid(Arr(items'), S, ts) == Overlaid(Arr(items), R, ts)
  {
    hide NextFits, Decimal;
  }

  lemma {:induction false} SetItemNext(items: seq<Value>, n: nat, child: Value, R: Patch, p: Path, ts: Path)
    requires NonNested(R) && p in R && ts < p && n < |items| && p[|ts|] == Decimal(n)
    requires forall q :: q in R && ts < q ==> NextFits(Arr(items), q, ts)
    ensures forall q :: q in R - {p} && ts < q ==> NextFits(Arr(items[n := child]), q, ts)
  {
    forall q | q in R - {p} && ts < q
      ensures NextFits(Arr(items[n := child]), q, ts)
    {
      assert NextFits(Arr(items), q, ts);
      ParseDecimal(n);
      ShortPrefix(ts, q, p);
    }
  }

  lemma {:induction false} ShortPrefix(ts: Path, q: Path, p: Path)
    ensures ts < p && ts < q && |q| == |ts| + 1 && q[|ts|] == p[|ts|] ==> q <= p
  {
  }
}
