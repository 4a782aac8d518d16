/** What a removed member named "0" does to recovery: set_pointer cannot put it back, and nothing later can. */
module Damage {
  import opened Json
  import opened Pointer
  import opened Overlay

  /** The place `token` names in an array of `n` items, when it is written the way indices are. */
  predicate NamesItem(token: string, n: nat) {
    ParseIndex(token).Some? && ParseIndex(token).value < n && token == Decimal(ParseIndex(token).value)
  }

  /** The value at `z` is an object with a member named "0". */
  ghost predicate ZeroAt(v: Value, z: Path)
    decreases |z|
  {
    match v
    case Obj(m) => if z == [] then "0" in m else z[0] in m && ZeroAt(m[z[0]], z[1..])
    case Arr(items) => z != [] && NamesItem(z[0], |items|) && ZeroAt(items[ParseIndex(z[0]).value], z[1..])
    case _ => false
  }

  /** Laying the fragments over a value at `ts`, as set_pointer does, leaves an object with a member "0" at `z`.
      A fragment for a member "0" that is not there does not bring it back. */
  ghost predicate Shows(v: Value, R: Patch, ts: Path, z: Path)
    decreases |z|
  {
    if ts in R then ZeroAt(R[ts], z)
    else match v
      case Obj(m) =>
        if z == [] then "0" in m
        else if z[0] in m then Shows(m[z[0]], R, ts + [z[0]], z[1..])
        else z[0] != "0" && ts + [z[0]] in R && ZeroAt(R[ts + [z[0]]], z[1..])
      case Arr(items) =>
        z != [] && NamesItem(z[0], |items|) && Shows(items[ParseIndex(z[0]).value], R, ts + [z[0]], z[1..])
      case _ => false
  }

  /** Writing `x` through `rel` fails, ends exactly at `rel`, or puts an empty array where an object lacked "0". */
  ghost predicate Lands(v: Value, rel: Path, x: Value)
    decreases |rel|
  {
    rel == []
    || match v
       case Obj(m) =>
         if rel[0] in m then Lands(m[rel[0]], rel[1..], x) else |rel| == 1 && (rel[0] != "0" || x == Arr([]))
       case Arr(items) =>
         ParseIndex(rel[0]).Some? && ParseIndex(rel[0]).value < |items| ==>
           NamesItem(rel[0], |items|) && Lands(items[ParseIndex(rel[0]).value], rel[1..], x)
       case Null => false
       case _ => true
  }

  ghost predicate Landing(v: Value, R: Patch, ts: Path) {
    forall p :: p in R && ts <= p ==> Lands(v, p[|ts|..], R[p])
  }

  lemma {:induction false} ClearShows(v: Value, R: Patch, ts: Path, z: Path)
    requires Clear(R, ts)
    ensures Shows(v, R, ts, z) <==> ZeroAt(v, z)
    decreases |z|
  {
    assert ts <= ts;
    if z != [] {
      assert ts <= ts + [z[0]];
      ClearChild(R, ts, z[0]);
      match v
      case Obj(m) =>
        if z[0] in m {
          ClearShows(m[z[0]], R, ts + [z[0]], z[1..]);
        }
      case Arr(items) =>
        if NamesItem(z[0], |items|) {
          ClearShows(items[ParseIndex(z[0]).value], R, ts + [z[0]], z[1..]);
        }
      case _ =>
    }
  }

  lemma {:induction false} AgreeShows(v: Value, R: Patch, S: Patch, ts: Path, z: Path)
    requires Agree(R, S, ts)
    ensures Shows(v, R, ts, z) <==> Shows(v, S, ts, z)
    decreases |z|
  {
    assert ts <= ts;
    if z != [] {
      assert ts <= ts + [z[0]];
      AgreeChild(R, S, ts, z[0]);
      match v
      case Obj(m) =>
        if z[0] in m {
          AgreeShows(m[z[0]], R, S, ts + [z[0]], z[1..]);
        }
      case Arr(items) =>
        if NamesItem(z[0], |items|) {
          AgreeShows(items[ParseIndex(z[0]).value], R, S, ts + [z[0]], z[1..]);
        }
      case _ =>
    }
  }

  lemma {:induction false} BelowChild(ts: Path, k: string, p: Path)
    requires ts + [k] <= p
    ensures ts <= p && p[|ts|..] != [] && p[|ts|..][0] == k && p[|ts|..][1..] == p[|ts + [k]|..]
  {
  }

  lemma {:induction false} LandingMember(m: map<string, Value>, R: Patch, ts: Path, k: string)
    requires Landing(Obj(m), R, ts) && k in m
    ensures Landing(m[k], R, ts + [k])
  {
    forall p | p in R && ts + [k] <= p
      ensures Lands(m[k], p[|ts + [k]|..], R[p])
    {
      BelowChild(ts, k, p);
    }
  }

  lemma {:induction false} LandingItem(items: seq<Value>, R: Patch, ts: Path, i: nat)
    requires Landing(Arr(items), R, ts) && i < |items|
    ensures Landing(items[i], R, ts + [Decimal(i)])
  {
    ParseDecimal(i);
    forall p | p in R && ts + [Decimal(i)] <= p
      ensures Lands(items[i], p[|ts + [Decimal(i)]|..], R[p])
    {
      BelowChild(ts, Decimal(i), p);
    }
  }

  lemma {:induction false} TailsApart(a: Path, b: Path)
    requires a != [] && b != [] && a[0] == b[0] && !(a <= b)
    ensures !(a[1..] <= b[1..])
  {
    assert a == [a[0]] + a[1..] && b == [b[0]] + b[1..];
  }

  /** After a write that succeeded, writes elsewhere still land. */
  lemma {:induction false} LandsAfter(v: Value, rel: Path, x: Value, other: Path, y: Value)
    requires Lands(v, rel, x) && Lands(v, other, y) && !(rel <= other) && !(other <= rel)
    requires SetParts(v, rel, x).Ok?
    ensures Lands(SetParts(v, rel, x).value, other, y)
    decreases |rel|, 1
  {
    match v
    case Obj(m) => LandsAfterMember(m, rel, x, other, y);
    case Arr(items) => LandsAfterItem(items, rel, x, other, y);
    case _ =>
  }

  lemma {:induction false} LandsAfterMember(m: map<string, Value>, rel: Path, x: Value, other: Path, y: Value)
    requires Lands(Obj(m), rel, x) && Lands(Obj(m), other, y) && !(rel <= other) && !(other <= rel)
    requires SetParts(Obj(m), rel, x).Ok?
    ensures Lands(SetParts(Obj(m), rel, x).value, other, y)
    decreases |rel|, 0
  {
    hide ParseIndex, Decimal;
    var k, j := rel[0], other[0];
    if k in m {
      assert SetParts(Obj(m), rel, x) == Ok(Obj(m[k := SetParts(m[k], rel[1..], x).value]));
      if j == k {
        TailsApart(rel, other);
        TailsApart(other, rel);
        LandsAfter(m[k], rel[1..], x, other[1..], y);
      }
    } else {
      assert rel == [k];
      assert j == k ==> rel <= other;
      assert SetParts(Obj(m), rel, x) == if k == "0" then Ok(x) else Ok(Obj(m[k := x]));
    }
  }

  lemma {:induction false} LandsAfterItem(items: seq<Value>, rel: Path, x: Value, other: Path, y: Value)
    requires Lands(Arr(items), rel, x) && Lands(Arr(items), other, y) && !(rel <= other) && !(other <= rel)
    requires SetParts(Arr(items), rel, x).Ok?
    ensures Lands(SetParts(Arr(items), rel, x).value, other, y)
    decreases |rel|, 0
  {
    hide ParseIndex, Decimal;
    var i, j := ParseIndex(rel[0]).value, ParseIndex(other[0]);
    var child := SetParts(items[i], rel[1..], x).value;
    assert SetParts(Arr(items), rel, x) == Ok(Arr(items[i := child]));
    if j == Some(i) {
      TailsApart(rel, other);
      TailsApart(other, rel);
      LandsAfter(items[i], rel[1..], x, other[1..], y);
    }
  }

  /** Writing one fragment, when it succeeds, shows no member "0" that was not shown before. */
  lemma {:induction false} SetShows(v: Value, R: Patch, ts: Path, rel: Path, z: Path)
    requires NonNested(R) && ts + rel in R && Landing(v, R, ts) && SetParts(v, rel, R[ts + rel]).Ok?
    ensures Shows(SetParts(v, rel, R[ts + rel]).value, R - {ts + rel}, ts, z) ==> Shows(v, R, ts, z)
    decreases |rel|
  {
    var p := ts + rel;
    var x, S := R[p], R - {p};
    if rel == [] {
      assert p == ts;
      assert Clear(S, ts);
      ClearShows(x, S, ts, z);
    } else {
      var k, rest := rel[0], rel[1..];
      ParentOfSplit(ts, rel);
      assert ts !in R;
      assert p[|ts|..] == rel;
      assert Lands(v, rel, x);
      match v
      case Obj(m) => SetShowsMember(m, R, ts, rel, z);
      case Arr(items) => SetShowsItem(items, R, ts, rel, z);
      case _ =>
    }
  }

  lemma {:induction false} SetShowsMember(m: map<string, Value>, R: Patch, ts: Path, rel: Path, z: Path)
    requires NonNested(R) && ts + rel in R && rel != [] && ts !in R && Landing(Obj(m), R, ts)
    requires Lands(Obj(m), rel, R[ts + rel]) && SetParts(Obj(m), rel, R[ts + rel]).Ok?
    ensures Shows(SetParts(Obj(m), rel, R[ts + rel]).value, R - {ts + rel}, ts, z) ==> Shows(Obj(m), R, ts, z)
    decreases |rel|, 0
  {
    var p, k, rest := ts + rel, rel[0], rel[1..];
    var x, S := R[p], R - {p};
    ParentOfSplit(ts, rel);
    if k in m || k != "0" {
      var child := if k in m then SetParts(m[k], rest, x).value else x;
      assert k !in m ==> rest == [];
      assert SetParts(Obj(m), rel, x) == Ok(Obj(m[k := child]));
      if z != [] && z[0] == k {
        if k in m {
          LandingMember(m, R, ts, k);
          SetShows(m[k], R, ts + [k], rest, z[1..]);
        } else {
          assert p == ts + [k] && Clear(S, ts + [k]);
          ClearShows(x, S, ts + [k], z[1..]);
        }
      } else if z != [] {
        AgreeSibling(R, p, ts, z[0]);
        assert ts + [z[0]] <= ts + [z[0]];
        if z[0] in m {
          AgreeShows(m[z[0]], R, S, ts + [z[0]], z[1..]);
        }
      }
    } else {
      assert rest == [] && x == Arr([]);
      assert SetParts(Obj(m), rel, x) == Ok(x);
      assert ts !in S;
    }
  }

  lemma {:induction false} SetShowsItem(items: seq<Value>, R: Patch, ts: Path, rel: Path, z: Path)
    requires NonNested(R) && ts + rel in R && rel != [] && ts !in R && Landing(Arr(items), R, ts)
    requires Lands(Arr(items), rel, R[ts + rel]) && SetParts(Arr(items), rel, R[ts + rel]).Ok?
    ensures Shows(SetParts(Arr(items), rel, R[ts + rel]).value, R - {ts + rel}, ts, z) ==> Shows(Arr(items), R, ts, z)
    decreases |rel|, 0
  {
    var p, k, rest := ts + rel, rel[0], rel[1..];
    var x, S := R[p], R - {p};
    ParentOfSplit(ts, rel);
    var i := ParseIndex(k).value;
    var child := SetParts(items[i], rest, x).value;
    assert SetParts(Arr(items), rel, x) == Ok(Arr(items[i := child]));
    if z != [] && NamesItem(z[0], |items|) {
      var j := ParseIndex(z[0]).value;
      if j == i {
        assert z[0] == k;
        LandingItem(items, R, ts, i);
        SetShows(items[i], R, ts + [k], rest, z[1..]);
      } else {
        AgreeSibling(R, p, ts, z[0]);
        AgreeShows(items[j], R, S, ts + [z[0]], z[1..]);
      }
    }
  }

  /** The other fragments still land after one was written. */
  lemma {:induction false} SetLanding(v: Value, R: Patch, ts: Path, rel: Path)
    requires NonNested(R) && ts + rel in R && Landing(v, R, ts) && SetParts(v, rel, R[ts + rel]).Ok?
    ensures Landing(SetParts(v, rel, R[ts + rel]).value, R - {ts + rel}, ts)
  {
    hide Lands, SetParts;
    var p := ts + rel;
    assert p[|ts|..] == rel;
    forall q | q in R - {p} && ts <= q
      ensures Lands(SetParts(v, rel, R[p]).value, q[|ts|..], R[q])
    {
      var other := q[|ts|..];
      assert q == ts + other;
      TailsComparable(ts, rel, other);
      LandsAfter(v, rel, R[p], other, R[q]);
    }
  }

  lemma TailsComparable(ts: Path, a: Path, b: Path)
    ensures a <= b ==> ts + a <= ts + b
    ensures b <= a ==> ts + b <= ts + a
  {
  }
}
