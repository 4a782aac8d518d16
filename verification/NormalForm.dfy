/** What it is for two values to have the same normal form, told without normalizing them. */
module NormalForm {
  import opened Json

  /** A value out of the arrays that hold it alone. */
  function Core(v: Value): (core: Value)
    ensures core == v || core < v
    ensures core.Arr? ==> |core.items| != 1
    decreases v
  {
    if v.Arr? && |v.items| == 1 then Core(v.items[0]) else v
  }

  /** The text that a scalar is in XML. */
  predicate Spells(v: Value, text: string) {
    match v
    case Bool(true) => text == "true"
    case Bool(false) => text == "false"
    case Num(number) => text == number
    case Str(s) => text == s
    case _ => false
  }

  predicate IsEmpty(v: Value) {
    v == Null || v == Obj(map[])
  }

  /** One link names the XML file and the other the JSON file of the same name. */
  predicate Converted(link: string, other: string) {
    |link| >= 4 && link == link[..|link| - 4] + ".xml" && other == link[..|link| - 4] + ".json"
  }

  ghost predicate SameText(a: Value, b: Value, field: string) {
    exists s, t :: Spells(a, s) && Spells(b, t) && (s == t || (field == "@uri" && (Converted(s, t) || Converted(t, s))))
  }

  /** The values differ at most in how scalars are typed, in arrays around single items, in whether an empty object is
      null, and in the file format that links name. */
  ghost predicate Same(v: Value, w: Value, field: string)
    decreases v, 1
  {
    SameCores(Core(v), Core(w), field)
  }

  ghost predicate SameCores(a: Value, b: Value, field: string)
    decreases a, 0
  {
    match a
    case Null => IsEmpty(b)
    case Obj(m) =>
      if m == map[] then IsEmpty(b)
      else b.Obj? && b.members.Keys == m.Keys && forall k :: k in m ==> Same(m[k], b.members[k], k)
    case Arr(items) =>
      b.Arr? && |b.items| == |items| && forall i :: 0 <= i < |items| ==> Same(items[i], b.items[i], field)
    case _ => SameText(a, b, field)
  }

  lemma {:induction false} CoreNormal(v: Value, field: string)
    ensures Normalize(v, field) == Normalize(Core(v), field)
    decreases v
  {
    if v.Arr? && |v.items| == 1 {
      CoreNormal(v.items[0], field);
    }
  }

  predicate IsScalar(v: Value) {
    v.Bool? || v.Num? || v.Str?
  }

  /** The text of a scalar. */
  function TextOf(v: Value): (text: string)
    requires IsScalar(v)
    ensures Spells(v, text) && forall t :: Spells(v, t) ==> t == text
  {
    match v
    case Bool(flag) => if flag then "true" else "false"
    case Num(number) => number
    case Str(s) => s
  }

  lemma NumbersAreNoLinks(t: Numeral)
    ensures !EndsWith(t, ".xml")
  {
    assert t[|t| - 1] != 'l';
    assert |t| >= 4 ==> t[|t| - 4..][3] == t[|t| - 1];
  }

  /** A link to an XML file, turned back. */
  function TurnedBack(link: string): string {
    if EndsWith(link, ".xml") then link[..|link| - 4] + ".json" else link
  }

  /** The normal form of a scalar is its text, with a link turned back. */
  lemma ScalarNormal(v: Value, field: string)
    requires IsScalar(v)
    ensures Normalize(v, field) == Str(if field == "@uri" then TurnedBack(TextOf(v)) else TextOf(v))
  {
    if v.Num? {
      NumbersAreNoLinks(v.text);
    } else if v.Bool? {
      assert !EndsWith("true", ".xml") && !EndsWith("false", ".xml");
    }
  }

  lemma ConvertedIs(s: string, t: string)
    ensures Converted(s, t) <==> EndsWith(s, ".xml") && t == TurnedBack(s)
    ensures Converted(s, t) ==> !EndsWith(t, ".xml")
  {
    if Converted(s, t) {
      assert t[|t| - 4..][0] == 'j';
    }
    assert EndsWith(s, ".xml") ==> s == s[..|s| - 4] + ".xml";
  }

  lemma LinksNormal(s: string, t: string)
    ensures TurnedBack(s) == TurnedBack(t) <==> s == t || Converted(s, t) || Converted(t, s)
  {
    ConvertedIs(s, t);
    ConvertedIs(t, s);
    hide Converted;
    if EndsWith(s, ".xml") && EndsWith(t, ".xml") {
      assert s == s[..|s| - 4] + ".xml" && t == t[..|t| - 4] + ".xml";
      assert TurnedBack(s)[..|TurnedBack(s)| - 5] == s[..|s| - 4];
      assert TurnedBack(t)[..|TurnedBack(t)| - 5] == t[..|t| - 4];
    }
  }

  lemma SameTextIs(a: Value, b: Value, field: string)
    requires IsScalar(a)
    ensures SameText(a, b, field) <==>
            IsScalar(b) &&
            (TextOf(a) == TextOf(b)
             || (field == "@uri" && (Converted(TextOf(a), TextOf(b)) || Converted(TextOf(b), TextOf(a)))))
  {
    SpelledOnce(a);
    SpelledOnce(b);
    hide Spells, TextOf, Converted;
  }

  lemma SpelledOnce(v: Value)
    ensures forall t :: Spells(v, t) <==> IsScalar(v) && t == TextOf(v)
  {
  }

  lemma ScalarsSame(a: Value, b: Value, field: string)
    requires IsScalar(a) && IsScalar(b)
    ensures Normalize(a, field) == Normalize(b, field) <==> SameText(a, b, field)
  {
    ScalarNormal(a, field);
    ScalarNormal(b, field);
    LinksNormal(TextOf(a), TextOf(b));
    SameTextIs(a, b, field);
    hide *;
  }

  lemma {:induction false} ObjectsSame(a: Value, b: Value, field: string)
    requires a.Obj? && b.Obj? && a.members != map[]
    ensures Normalize(a, field) == Normalize(b, field) <==>
            b.members.Keys == a.members.Keys && forall k :: k in a.members ==> Same(a.members[k], b.members[k], k)
    decreases a, 0
  {
    var m, n := a.members, b.members;
    if n == map[] {
      assert n.Keys != m.Keys;
    } else {
      var x, y := Normalize(a, field).members, Normalize(b, field).members;
      assert x.Keys == m.Keys && y.Keys == n.Keys;
      if m.Keys == n.Keys {
        forall k | k in m
          ensures x[k] == y[k] <==> Same(m[k], n[k], k)
        {
          NormalIff(m[k], n[k], k);
        }
        assert x == y <==> forall k :: k in m ==> x[k] == y[k];
      }
      hide Same, Core;
    }
  }

  lemma {:induction false} ArraysSame(a: Value, b: Value, field: string)
    requires a.Arr? && b.Arr? && |a.items| != 1 && |b.items| != 1
    ensures Normalize(a, field) == Normalize(b, field) <==>
            |b.items| == |a.items| && forall i :: 0 <= i < |a.items| ==> Same(a.items[i], b.items[i], field)
    decreases a, 0
  {
    var x, y := Normalize(a, field).items, Normalize(b, field).items;
    if |a.items| == |b.items| {
      forall i | 0 <= i < |a.items|
        ensures x[i] == y[i] <==> Same(a.items[i], b.items[i], field)
      {
        NormalIff(a.items[i], b.items[i], field);
      }
      assert x == y <==> forall i :: 0 <= i < |a.items| ==> x[i] == y[i];
    }
    hide Same, Core;
  }

  lemma {:induction false} CoresSame(a: Value, b: Value, field: string)
    requires (a.Arr? ==> |a.items| != 1) && (b.Arr? ==> |b.items| != 1)
    ensures Normalize(a, field) == Normalize(b, field) <==> SameCores(a, b, field)
    decreases a, 1
  {
    if IsScalar(a) {
      SameTextIs(a, b, field);
      hide SameText;
      if IsScalar(b) {
        ScalarsSame(a, b, field);
      }
    } else if a.Obj? && b.Obj? && a.members != map[] {
      ObjectsSame(a, b, field);
      hide Normalize;
    } else if a.Arr? && b.Arr? {
      ArraysSame(a, b, field);
      hide Normalize;
    }
  }

  /** Two values have one normal form exactly when they are the same. */
  lemma {:induction false} NormalIff(v: Value, w: Value, field: string)
    ensures Normalize(v, field) == Normalize(w, field) <==> Same(v, w, field)
    decreases v, 2
  {
    CoreNormal(v, field);
    CoreNormal(w, field);
    CoresSame(Core(v), Core(w), field);
    hide Normalize, SameCores;
  }
}
