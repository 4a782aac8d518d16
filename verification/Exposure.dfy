/** What of a document the adaptation cannot give back: read off the source, before anything is adapted. */
module Exposure {
  import opened Json
  import opened Pointer
  import opened XmlText
  import opened Overlay
  import opened Steps
  import opened Languages
  import opened Rules

  /** The steps on an object leave one of its members as it is, so nothing is recorded for it. */
  predicate Unmarked(m: Members, k: string, path: string, category: string) {
    k in m && var shallow := Shallow(m, path, category); k in shallow && shallow[k] == m[k]
  }

  /** The projection reaches an empty array named "0" and removes it. It does not reach below an object that is
      recorded as a whole, because it is renamed, nor below a member that is recorded. */
  predicate Exposed(v: Value, path: string, category: string)
    decreases v
  {
    match v
    case Obj(m) =>
      RemovesZero(m, path, category)
      || (!Renames(m, path, category)
          && exists k :: k in m && Unmarked(m, k, path, category) && Exposed(m[k], Join(path, Escape(k)), category))
    case Arr(items) => exists i :: 0 <= i < |items| && Exposed(items[i], Join(path, Decimal(i)), category)
    case _ => false
  }

  /** An extension member is removed with everything in it, so whatever it holds is not exposed. */
  lemma {:induction false} ExtensionHides(m: Members, k: string, path: string, category: string)
    requires IsExtensionKey(k)
    ensures !Unmarked(m, k, path, category)
  {
    hide CategoryAdapted, LanguagesMerged, UriMapped, ExchangeMapped, IsExtensionKey, EmptyArrayKeys, IsEmptyScalar, IsEmptyOptional;
  }

  /** An optional element with these members is removed. */
  predicate Hollow(key: string, names: set<string>) {
    key in OPTIONAL_ELEMENTS && (names == {} || (key == "common:other" && forall name :: name in names ==> "@" <= name))
  }

  /** The member names an object has after it and everything in it is adapted. */
  function Remains(v: Value, path: string, category: string): set<string>
    decreases v
  {
    match v
    case Obj(m) =>
      set k | k in Shallow(m, path, category)
              && !(k in m && m[k].Obj? && Hollow(k, Remains(m[k], Join(path, Escape(k)), category)))
    case _ => {}
  }

  /** The steps on an object leave the member alone, and it does not vanish: nothing is recorded for it. */
  predicate Untouched(m: Members, k: string, path: string, category: string) {
    Unmarked(m, k, path, category) && k in Remains(Obj(m), path, category)
  }

  /** The members that are left, as the steps on the object make them. */
  function Left(m: Members, path: string, category: string): Members {
    map k | k in Shallow(m, path, category) && k in Remains(Obj(m), path, category) :: Shallow(m, path, category)[k]
  }

  /** Text has a member beside it that XML shows. */
  predicate TextFits(m: Members) {
    "#text" in m ==> exists k :: k in m && k != "#text" && ("@" <= k || HasElement(m[k]))
  }

  /** A string that comes back from an element unchanged. */
  predicate ElementText(v: Value) {
    v.Str? ==> Settled(v.value) && v.value != ""
  }

  /** A scalar member that comes back: an attribute is not null and has no tab and no line end, and a child is not
      the empty string. */
  predicate MemberStays(k: string, v: Value) {
    if "@" <= k then !v.Null? && (v.Str? ==> OneLine(v.value)) else k == "#text" || v != Str("")
  }

  /** Text that XML does not lose, wherever the projection records nothing: text in an object has another member
      beside it, attributes and children stay, and no white space surrounds a string in an array. */
  predicate TextStays(v: Value, path: string, category: string)
    decreases v
  {
    match v
    case Obj(m) =>
      Renames(m, path, category)
      || (TextFits(Left(m, path, category))
          && forall k :: k in m && Untouched(m, k, path, category) ==>
               MemberStays(k, m[k]) && TextStays(m[k], Join(path, Escape(k)), category))
    case Arr(items) =>
      forall i :: 0 <= i < |items| ==> ElementText(items[i]) && TextStays(items[i], Join(path, Decimal(i)), category)
    case _ => true
  }

  /** The same of a projected value with its fragments. */
  ghost predicate TextKept(v: Value, R: Patch, ts: Path)
    decreases v
  {
    ts in R
    || match v
       case Obj(m) =>
         TextFits(m)
         && forall k :: k in m ==> TextKept(m[k], R, ts + [k]) && (ts + [k] !in R ==> MemberStays(k, m[k]))
       case Arr(items) =>
         forall i :: 0 <= i < |items| ==> TextKept(items[i], R, ts + [Decimal(i)]) && ElementText(items[i])
       case _ => true
  }

  /** Where the projection records nothing, no array is an item of an array. */
  predicate Flat(v: Value, path: string, category: string)
    decreases v
  {
    match v
    case Obj(m) =>
      Renames(m, path, category)
      || forall k :: k in m && Untouched(m, k, path, category) ==> Flat(m[k], Join(path, Escape(k)), category)
    case Arr(items) => forall i :: 0 <= i < |items| ==> !items[i].Arr? && Flat(items[i], Join(path, Decimal(i)), category)
    case _ => true
  }

  /** The same of a projected value with its fragments. An item that is recorded as a whole keeps a member beside its
      text: XML drops the brackets around a single item. */
  ghost predicate FlatKept(v: Value, R: Patch, ts: Path)
    decreases v
  {
    ts in R
    || match v
       case Obj(m) => forall k :: k in m ==> FlatKept(m[k], R, ts + [k])
       case Arr(items) =>
         forall i :: 0 <= i < |items| ==>
           !items[i].Arr? && FlatKept(items[i], R, ts + [Decimal(i)])
           && (ts + [Decimal(i)] in R ==> items[i].Obj? && TextFits(items[i].members))
          case _ => true
  }

  /** A scalar member is what the steps on the object have made of it, and the others have an element as before. */
  ghost predicate ScalarsKept(shallow: Members, out: Members) {
    forall k :: k in out ==>
      k in shallow
      && if Nests(shallow[k]) then Nests(out[k]) && (HasElement(out[k]) <==> HasElement(shallow[k])) else out[k] == shallow[k]
  }

  /** No member is new, and arrays come from arrays. */
  ghost predicate ArraysKept(m: Members, out: Members) {
    forall k :: k in out ==> k in m && (out[k].Arr? ==> m[k].Arr?)
  }

  /** What the projection of `v` at a place without fragments is: which members are left, what is recorded, and,
      where nothing is, the same of the members. */
  ghost predicate Tracks(v: Value, out: Value, R: Patch, ts: Path, path: string, category: string)
    decreases v
  {
    match v
    case Obj(m) =>
      out.Obj? && out.members.Keys == Remains(v, path, category)
      && ScalarsKept(Shallow(m, path, category), out.members)
      && (ts in R <==> Renames(m, path, category))
      && (ts !in R ==> ArraysKept(m, out.members) && forall k :: k in m ==>
            if Unmarked(m, k, path, category) && k in out.members
            then Tracks(m[k], out.members[k], R, ts + [k], Join(path, Escape(k)), category)
            else ts + [k] in R)
    case Arr(items) =>
      out.Arr? && |out.items| == |items|
      && ts !in R
      && forall i :: 0 <= i < |items| ==> Tracks(items[i], out.items[i], R, ts + [Decimal(i)], Join(path, Decimal(i)), category)
    case _ => out == v && ts !in R
  }

  /** What is known of one member of a projected object. */
  lemma {:induction false} TracksMember(m: Members, out: Value, R: Patch, ts: Path, path: string, category: string, k: string)
    requires Tracks(Obj(m), out, R, ts, path, category) && ts !in R && k in m
    ensures out.Obj? && out.members.Keys == Remains(Obj(m), path, category)
    ensures !Unmarked(m, k, path, category) ==> ts + [k] in R
    ensures Unmarked(m, k, path, category) && k in out.members ==>
              Tracks(m[k], out.members[k], R, ts + [k], Join(path, Escape(k)), category)
  {
    hide Remains, Shallow, Renames, ScalarsKept, ArraysKept, Unmarked;
  }

  lemma {:induction false} AgreeTracks(v: Value, out: Value, R: Patch, S: Patch, ts: Path, path: string, category: string)
    requires Tracks(v, out, R, ts, path, category) && (Agree(R, S, ts) || (ts in R && ts in S))
    ensures Tracks(v, out, S, ts, path, category)
    decreases v
  {
    hide Remains, Shallow, Renames, ScalarsKept;
    assert ts <= ts;
    if ts !in R {
      match v
      case Obj(m) =>
        forall k | k in m
          ensures ts + [k] in R ==> ts + [k] in S
          ensures Unmarked(m, k, path, category) && k in out.members ==>
                    Tracks(m[k], out.members[k], S, ts + [k], Join(path, Escape(k)), category)
        {
          assert ts <= ts + [k];
          AgreeChild(R, S, ts, k);
          if Unmarked(m, k, path, category) && k in out.members {
            AgreeTracks(m[k], out.members[k], R, S, ts + [k], Join(path, Escape(k)), category);
          }
        }
      case Arr(items) =>
        forall i | 0 <= i < |items|
          ensures Tracks(items[i], out.items[i], S, ts + [Decimal(i)], Join(path, Decimal(i)), category)
        {
          AgreeChild(R, S, ts, Decimal(i));
          AgreeTracks(items[i], out.items[i], R, S, ts + [Decimal(i)], Join(path, Decimal(i)), category);
        }
      case _ =>
    }
  }

  lemma {:induction false} LeftFits(m: Members, out: Members, path: string, category: string)
    requires out.Keys == Remains(Obj(m), path, category) && ScalarsKept(Shallow(m, path, category), out)
    ensures TextFits(out) <==> TextFits(Left(m, path, category))
  {
    hide Shallow, Remains;
    var left := Left(m, path, category);
    forall k
      ensures k in out <==> k in left
      ensures k in out ==> (HasElement(out[k]) <==> HasElement(left[k]))
    {
    }
  }

  /** Text stays in the source exactly when the projection keeps it. */
  lemma {:induction false} TracksText(v: Value, out: Value, R: Patch, ts: Path, path: string, category: string)
    requires Tracks(v, out, R, ts, path, category)
    ensures TextStays(v, path, category) <==> TextKept(out, R, ts)
    decreases v
  {
    hide Remains, Shallow, Renames, TextFits, ScalarsKept, MemberStays, ElementText, Left, Unmarked;
    match v
    case Obj(m) =>
      if ts !in R {
        LeftFits(m, out.members, path, category);
        forall k | k in out.members
          ensures TextKept(out.members[k], R, ts + [k]) && (ts + [k] !in R ==> MemberStays(k, out.members[k]))
             <==> (Untouched(m, k, path, category) ==> MemberStays(k, m[k]) && TextStays(m[k], Join(path, Escape(k)), category))
        {
          TracksMember(m, out, R, ts, path, category, k);
          if Unmarked(m, k, path, category) {
            TracksText(m[k], out.members[k], R, ts + [k], Join(path, Escape(k)), category);
            MemberTracked(k, m[k], out.members[k], R, ts + [k], Join(path, Escape(k)), category);
          }
        }
        ObjectText(m, out.members, R, ts, path, category);
      }
    case Arr(items) =>
      forall i | 0 <= i < |items|
        ensures TextKept(out.items[i], R, ts + [Decimal(i)]) && ElementText(out.items[i])
           <==> ElementText(items[i]) && TextStays(items[i], Join(path, Decimal(i)), category)
      {
        TracksText(items[i], out.items[i], R, ts + [Decimal(i)], Join(path, Decimal(i)), category);
        ItemKind(items[i], out.items[i], R, ts + [Decimal(i)], Join(path, Decimal(i)), category);
        assert ElementText(out.items[i]) <==> ElementText(items[i]) by {
          ElementKind(items[i], out.items[i]);
        }
      }
    case _ =>
  }

  lemma ElementKind(v: Value, out: Value)
    requires (out.Arr? <==> v.Arr?) && (out.Obj? <==> v.Obj?) && (!Nests(v) ==> out == v)
    ensures ElementText(out) <==> ElementText(v)
  {
    hide Settled;
  }

  /** A member that the steps leave alone stays or not like its projection, and always when it is recorded. */
  lemma MemberTracked(k: string, v: Value, out: Value, R: Patch, ts: Path, path: string, category: string)
    requires Tracks(v, out, R, ts, path, category)
    ensures MemberStays(k, v) <==> MemberStays(k, out)
    ensures ts in R ==> MemberStays(k, v) && TextStays(v, path, category)
  {
    hide Remains, Shallow, Renames, ScalarsKept, ArraysKept, Unmarked, OneLine, TextFits, Left;
  }

  lemma {:induction false} ObjectText(m: Members, out: Members, R: Patch, ts: Path, path: string, category: string)
    requires ts !in R && !Renames(m, path, category) && out.Keys == Remains(Obj(m), path, category) && out.Keys <= m.Keys
    requires TextFits(out) <==> TextFits(Left(m, path, category))
    requires forall k :: k in out ==>
               (TextKept(out[k], R, ts + [k]) && (ts + [k] !in R ==> MemberStays(k, out[k]))
                <==> (Untouched(m, k, path, category) ==> MemberStays(k, m[k]) && TextStays(m[k], Join(path, Escape(k)), category)))
    ensures TextStays(Obj(m), path, category) <==> TextKept(Obj(out), R, ts)
  {
    hide Remains, Shallow, Renames, TextFits, MemberStays, Left, Unmarked;
  }

  /** Where the source is flat, the projection is. */
  lemma {:induction false} TracksFlat(v: Value, out: Value, R: Patch, ts: Path, path: string, category: string)
    requires Tracks(v, out, R, ts, path, category) && Flat(v, path, category)
    ensures FlatKept(out, R, ts)
    decreases v
  {
    hide Remains, Shallow, Renames, ScalarsKept, TextFits;
    match v
    case Obj(m) =>
      if ts !in R {
        forall k | k in out.members
          ensures FlatKept(out.members[k], R, ts + [k])
        {
          if ts + [k] !in R {
            TracksMember(m, out, R, ts, path, category, k);
            TracksFlat(m[k], out.members[k], R, ts + [k], Join(path, Escape(k)), category);
          }
        }
      }
    case Arr(items) =>
      forall i | 0 <= i < |items|
        ensures !out.items[i].Arr? && FlatKept(out.items[i], R, ts + [Decimal(i)])
        ensures ts + [Decimal(i)] in R ==> out.items[i].Obj? && TextFits(out.items[i].members)
      {
        TracksFlat(items[i], out.items[i], R, ts + [Decimal(i)], Join(path, Decimal(i)), category);
        ItemKind(items[i], out.items[i], R, ts + [Decimal(i)], Join(path, Decimal(i)), category);
        if ts + [Decimal(i)] in R {
          RecordedItem(items[i].members, out.items[i], R, ts + [Decimal(i)], path, i, category);
        }
      }
    case _ =>
  }

  lemma {:induction false} RecordedItem(m: Members, out: Value, R: Patch, ts: Path, path: string, i: nat, category: string)
    requires Tracks(Obj(m), out, R, ts, Join(path, Decimal(i)), category) && ts in R
    ensures TextFits(out.members)
  {
    hide Remains, Shallow, Renames, ScalarsKept, TextFits, Left, Join, Decimal, Unmarked;
    LeftFits(m, out.members, Join(path, Decimal(i)), category);
    ItemTextFits(m, path, i, category);
  }

  lemma ItemKind(v: Value, out: Value, R: Patch, ts: Path, path: string, category: string)
    requires Tracks(v, out, R, ts, path, category)
    ensures (out.Arr? <==> v.Arr?) && (out.Obj? <==> v.Obj?) && (!Nests(v) ==> out == v)
    ensures ts in R ==> v.Obj?
  {
    hide Remains, Shallow, Renames, ScalarsKept, ArraysKept, Unmarked;
  }

  // ---------- members that keep their place ----------

  /** The names that the steps of a category give, or write another kind of value to. */
  const WRITTEN: set<string> := {
    "common:timeRepresentativenessDescription", "common:generalComment", "functionalUnitFlowProperties", "compliance"}

  /** A member is there with its old value, or an array with another array, or it is gone. */
  predicate Carried(o: Members, out: Members, key: string) {
    key in out ==> key in o && (out[key] == o[key] || (out[key].Arr? && o[key].Arr?) || (out[key].Str? && o[key].Str?))
  }

  lemma {:induction false} CarriedThroughModel(o: Members, path: string, key: string)
    requires key !in WRITTEN
    ensures Carried(o, ModelAdapted(o, path), key)
  {
    hide EndsWith, IsReviewPath, AllFragments, MixedText, AsItems;
    var commented := CommentProjected(o, path);
    assert Carried(o, commented, key);
    var trimmed := commented - Names(MODEL_METADATA) - ModelOmitted(path);
    assert Carried(commented, trimmed, key);
    var named := NameMapped(trimmed, path);
    assert Carried(trimmed, named, key);
    var reviewed := if IsReviewPath(path) then named - {"@type"} else named;
    assert Carried(named, reviewed, key);
    assert Carried(reviewed, PrimaryCompliance(reviewed), key);
  }

  lemma {:induction false} CarriedThroughCategory(o: Members, path: string, category: string, key: string)
    requires key !in WRITTEN
    ensures Carried(o, CategoryAdapted(o, path, category), key)
  {
    hide EndsWith, IsTimePath, IsExchangePath, TakesShortText, ModelAdapted, ProcessOmitted, FlowOmitted;
    match category
    case "processes" =>
      var named := TimeMapped(o, path);
      assert Carried(o, named, key);
      var kept := named - Names(PROCESS_EXTENSIONS) - ProcessOmitted(named, path);
      assert Carried(named, kept, key);
    case "flows" => assert Carried(o, o - Names(FLOW_EXTENSIONS) - FlowOmitted(o, path), key);
    case "lciamethods" =>
    case "lifecyclemodels" => CarriedThroughModel(o, path, key);
    case "sources" => assert Carried(o, o - Names(SOURCE_METADATA), key);
    case _ =>
  }

  /** A member that no step gives or turns into another kind. */
  lemma {:induction false} ShallowCarried(o: Members, path: string, category: string, key: string)
    requires key !in WRITTEN && key != "referencesToDataSource"
    ensures Carried(o, Shallow(o, path, category), key)
  {
    hide IsExchangePath, CategoryAdapted, EndsWith, IsEmptyScalar, IsEmptyOptional, MayRepeat, HasRepeat;
    var mapped := if category == "processes" then ExchangeMapped(o, path) else o;
    assert Carried(o, mapped, key);
    var merged := LanguagesMerged(UriMapped(mapped), path);
    assert Carried(mapped, merged, key);
    var adapted := CategoryAdapted(merged, path, category);
    CarriedThroughCategory(merged, path, category, key);
    assert Carried(adapted, Shallow(o, path, category), key);
  }

  /** An optional element is an object after the steps exactly when it was that object before. */
  lemma {:induction false} OptionalCarried(o: Members, path: string, category: string, key: string)
    requires key in OPTIONAL_ELEMENTS && key in Shallow(o, path, category)
    ensures key in o && (Shallow(o, path, category)[key].Obj? || o[key].Obj? ==> Shallow(o, path, category)[key] == o[key])
  {
    hide Shallow;
    OptionalNames();
    ShallowCarried(o, path, category, key);
  }

  lemma {:induction false} OptionalNames()
    ensures OPTIONAL_ELEMENTS !! WRITTEN
    ensures "referencesToDataSource" !in OPTIONAL_ELEMENTS
  {
  }

  /** An exchange that is renamed has its data source beside any text. */
  lemma {:induction false} ExchangeKeepsSource(o: Members, path: string)
    requires IsExchangePath(path) && "referenceToDataSource" in o
    ensures var key, shallow := "referencesToDataSource", Shallow(o, path, "processes");
            key in Remains(Obj(o), path, "processes") && key in shallow && shallow[key].Obj?
  {
    hide IsExchangePath, ProcessAdapted, ExtensionKeys, EmptyArrayKeys, EmptyText, EmptyOptionals, TextsProjected;
    var key := "referencesToDataSource";
    OptionalNames();
    var merged := LanguagesMerged(UriMapped(ExchangeMapped(o, path)), path);
    assert key in merged && merged[key].Obj? by {
      assert |key| != |"@uri"|;
    }
    SourceThroughProcess(merged, path);
    NotExtension();
    ObjectStays(ProcessAdapted(merged, path), key);
  }

  /** The last steps remove no object but extensions and optional elements. */
  lemma {:induction false} ObjectStays(o: Members, key: string)
    requires key in o && o[key].Obj? && key != "#text" && key !in OPTIONAL_ELEMENTS && !IsExtensionKey(key)
    ensures var bound := o - ExtensionKeys(o);
      var filled := TextsProjected(bound - EmptyArrayKeys(bound));
      var texts := filled - EmptyText(filled);
      key in texts - EmptyOptionals(texts) && texts[key] == o[key]
  {
    hide IsEmptyScalar, IsExtensionKey, ProjectText;
  }

  lemma {:induction false} NotExtension()
    ensures !IsExtensionKey("referencesToDataSource")
  {
    assert "referencesToDataSource"[0] == 'r' && "tidasimport:"[0] == 't' && "unmatched:"[0] == 'u';
  }

  lemma {:induction false} SourceThroughProcess(o: Members, path: string)
    requires "referencesToDataSource" in o && o["referencesToDataSource"].Obj?
    ensures var out := ProcessAdapted(o, path); "referencesToDataSource" in out && out["referencesToDataSource"].Obj?
  {
    hide IsExchangePath, IsTimePath, TakesShortText, LacksQualityIndicator, IsIncompleteParameter;
    var key := "referencesToDataSource";
    assert key !in Names(PROCESS_EXTENSIONS);
    assert key !in ProcessOmitted(TimeMapped(o, path), path);
  }

  /** Of the renamings only that of an exchange happens to an item of an array, and it leaves the data source. */
  lemma {:induction false} ItemTextFits(o: Members, path: string, i: nat, category: string)
    requires Renames(o, Join(path, Decimal(i)), category)
    ensures TextFits(Left(o, Join(path, Decimal(i)), category))
  {
    hide Remains, Shallow, IsExchangePath;
    var at, key := Join(path, Decimal(i)), "referencesToDataSource";
    assert at[|at| - 1] == Decimal(i)[|Decimal(i)| - 1];
    assert "/processInformation/time"[|"/processInformation/time"| - 1] == 'e' && "/name"[|"/name"| - 1] == 'e';
    assert !IsTimePath(at) && !EndsWith(at, "/name");
    ExchangeKeepsSource(o, at);
    assert key in Left(o, at, category) && HasElement(Left(o, at, category)[key]);
    assert |key| != |"#text"|;
  }
}
