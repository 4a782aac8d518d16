/** Which objects of a document refer to which datasets, told without the walk. */
module ReferencePlaces {
  import opened Json
  import opened DatasetIndex
  import opened Closure
  import Pointer

  // ---------- letters ----------

  predicate SameLetter(x: char, y: char) {
    x == y || ('A' <= x <= 'Z' && y as int == x as int + 32) || ('A' <= y <= 'Z' && x as int == y as int + 32)
  }

  /** Equal up to the case of ASCII letters. */
  predicate SameLetters(a: string, b: string) {
    |a| == |b| && forall i :: 0 <= i < |a| ==> SameLetter(a[i], b[i])
  }

  lemma {:induction false} LowerIs(a: string, b: string)
    ensures Lower(a) == Lower(b) <==> SameLetters(a, b)
  {
    if |a| == |b| {
      forall i | 0 <= i < |a|
        ensures Lower(a)[i] == Lower(b)[i] <==> SameLetter(a[i], b[i])
      {
      }
    }
    if Lower(a) == Lower(b) {
      assert |a| == |Lower(a)| && |b| == |Lower(b)|;
      assert forall i :: 0 <= i < |a| ==> Lower(a)[i] == Lower(b)[i];
    }
  }

  // ---------- one object ----------

  /** The names of the eight dataset types in documents, and their names in an index. */
  const REFERENCE_TYPES: seq<(string, string)> := [
    ("contact data set", "contact"), ("flow data set", "flow"), ("flow property data set", "flowproperty"),
    ("unit group data set", "unitgroup"), ("process data set", "process"), ("source data set", "source"),
    ("lcia method data set", "lciamethod"), ("life cycle model data set", "lifecyclemodel")
  ]

  /** The part after the last colon of a member name is that of a link to a preceding version, in any case. */
  predicate PrecedingLink(name: string) {
    exists i :: 0 <= i <= |name| && (i > 0 ==> name[i - 1] == ':') && ':' !in name[i..] &&
                SameLetters(name[i..], "referenceToPrecedingDataSetVersion")
  }

  /** The object names a dataset of the type number `i` and is not under a link to a preceding version. */
  predicate NamesDataset(m: map<string, Value>, parent: Option<string>, i: nat)
    requires i < |REFERENCE_TYPES|
  {
    && (parent.Some? ==> !PrecedingLink(parent.value))
    && HasText(m, "@refObjectId") && HasText(m, "@type") && SameLetters(m["@type"].value, REFERENCE_TYPES[i].0)
  }

  predicate NamesVersion(m: map<string, Value>) {
    HasText(m, "@version") && m["@version"].value != ""
  }

  function KeyNamed(m: map<string, Value>, i: nat): string
    requires i < |REFERENCE_TYPES| && HasText(m, "@refObjectId") && HasText(m, "@version")
  {
    REFERENCE_TYPES[i].1 + ":" + Lower(m["@refObjectId"].value) + ":" + m["@version"].value
  }

  lemma {:induction false} LastSegmentIs(s: string) returns (i: nat)
    ensures i <= |s| && LastSegment(s) == s[i..] && ':' !in s[i..] && (i > 0 ==> s[i - 1] == ':')
  {
    if ':' !in s {
      i := 0;
      assert s[0..] == s;
    } else {
      i := LastSegmentIs(s[1..]);
      assert s[1..][i..] == s[i + 1..];
      if i == 0 {
        assert s[1..][0..] == s[1..];
        assert s == [s[0]] + s[1..];
      }
      i := i + 1;
    }
  }

  lemma OneLastSegment(s: string, i: nat, j: nat)
    requires i <= |s| && ':' !in s[i..] && (i > 0 ==> s[i - 1] == ':')
    requires j <= |s| && ':' !in s[j..] && (j > 0 ==> s[j - 1] == ':')
    ensures i == j
  {
    assert forall k :: i <= k < |s| ==> s[i..][k - i] == s[k];
    assert forall k :: j <= k < |s| ==> s[j..][k - j] == s[k];
  }

  lemma {:induction false} PrecedingLinkIs(name: string)
    ensures IsPrecedingVersionReference(name) <==> PrecedingLink(name)
  {
    var i := LastSegmentIs(name);
    LowerIs(LastSegment(name), "referenceToPrecedingDataSetVersion");
    if PrecedingLink(name) {
      var j :| 0 <= j <= |name| && (j > 0 ==> name[j - 1] == ':') && ':' !in name[j..] &&
               SameLetters(name[j..], "referenceToPrecedingDataSetVersion");
      OneLastSegment(name, i, j);
    }
  }

  lemma NamesAreLowerCase(i: nat)
    requires i < |REFERENCE_TYPES|
    ensures Lower(REFERENCE_TYPES[i].0) == REFERENCE_TYPES[i].0
  {
    LowerCase(REFERENCE_TYPES[i].0);
    hide Lower;
  }

  lemma LowerCase(s: string)
    requires forall k :: 0 <= k < |s| ==> !('A' <= s[k] <= 'Z')
    ensures Lower(s) == s
  {
  }

  lemma LowerNamed(value: string, i: nat)
    requires i < |REFERENCE_TYPES| && Lower(value) == REFERENCE_TYPES[i].0
    ensures ReferenceDatasetType(value) == Some(REFERENCE_TYPES[i].1)
  {
    hide Lower;
    var name := Lower(value);
    assert name[0] == REFERENCE_TYPES[i].0[0] && |name| == |REFERENCE_TYPES[i].0|;
  }

  lemma {:induction false} TypeNamed(value: string, i: nat)
    requires i < |REFERENCE_TYPES| && SameLetters(value, REFERENCE_TYPES[i].0)
    ensures ReferenceDatasetType(value) == Some(REFERENCE_TYPES[i].1)
  {
    hide Lower, SameLetters, ReferenceDatasetType;
    LowerIs(value, REFERENCE_TYPES[i].0);
    NamesAreLowerCase(i);
    LowerNamed(value, i);
  }

  lemma {:induction false} TypeFound(value: string) returns (i: nat)
    requires ReferenceDatasetType(value).Some?
    ensures i < |REFERENCE_TYPES| && SameLetters(value, REFERENCE_TYPES[i].0)
    ensures ReferenceDatasetType(value) == Some(REFERENCE_TYPES[i].1)
  {
    i := if Lower(value) == "contact data set" then 0
         else if Lower(value) == "flow data set" then 1
         else if Lower(value) == "flow property data set" then 2
         else if Lower(value) == "unit group data set" then 3
         else if Lower(value) == "process data set" then 4
         else if Lower(value) == "source data set" then 5
         else if Lower(value) == "lcia method data set" then 6
         else 7;
    NamesAreLowerCase(i);
    LowerIs(value, REFERENCE_TYPES[i].0);
    hide Lower, SameLetters;
  }

  /** An object refers to a key exactly when it names a dataset of one of the eight types with its version, outside a
      link to a preceding version; it lacks a version exactly when it names a dataset without one. */
  lemma {:induction false} ReferenceIs(m: map<string, Value>, parent: Option<string>, key: string)
    ensures ReferenceOf(m, parent) == To(key) <==>
            exists i :: 0 <= i < |REFERENCE_TYPES| && NamesDataset(m, parent, i) && NamesVersion(m) && key == KeyNamed(m, i)
    ensures ReferenceOf(m, parent) == Unversioned <==>
            exists i :: 0 <= i < |REFERENCE_TYPES| && NamesDataset(m, parent, i) && !NamesVersion(m)
  {
    if parent.Some? {
      PrecedingLinkIs(parent.value);
    }
    hide IsPrecedingVersionReference, PrecedingLink, SameLetters, ReferenceDatasetType, Lower;
    if HasText(m, "@refObjectId") && HasText(m, "@type") {
      var value := m["@type"].value;
      forall i | 0 <= i < |REFERENCE_TYPES| && SameLetters(value, REFERENCE_TYPES[i].0)
        ensures ReferenceDatasetType(value) == Some(REFERENCE_TYPES[i].1)
      {
        TypeNamed(value, i);
      }
      if ReferenceDatasetType(value).Some? {
        var i := TypeFound(value);
        assert NamesDataset(m, parent, i) <==> (parent.Some? ==> !PrecedingLink(parent.value));
      }
    }
  }

  /** An object that names a listed dataset, its identifier and its version refers to exactly that entry. */
  lemma {:induction false} EntryIsReferredTo(e: DatasetEntry, m: map<string, Value>, parent: Option<string>, i: nat)
    requires i < |REFERENCE_TYPES| && e.datasetType == REFERENCE_TYPES[i].1
    requires NamesDataset(m, parent, i) && NamesVersion(m)
    requires SameLetters(m["@refObjectId"].value, e.uuid) && m["@version"].value == e.version
    ensures ReferenceOf(m, parent) == To(e.Key())
  {
    LowerIs(m["@refObjectId"].value, e.uuid);
    ReferenceIs(m, parent, e.Key());
    hide NamesDataset, NamesVersion, ReferenceOf, Lower;
    assert e.Key() == KeyNamed(m, i);
  }

  // ---------- a whole document ----------

  datatype Token = Name(name: string) | Index(index: nat)

  /** What stands at a place of a document. */
  function Below(v: Value, path: seq<Token>): Option<Value>
    decreases |path|
  {
    if path == [] then Some(v)
    else
      match path[0]
      case Name(k) => if v.Obj? && k in v.members then Below(v.members[k], path[1..]) else None
      case Index(i) => if v.Arr? && i < |v.items| then Below(v.items[i], path[1..]) else None
  }

  /** The name of the member that a place is in, whatever arrays lie between. */
  function MemberAbove(parent: Option<string>, path: seq<Token>): Option<string>
    decreases |path|
  {
    if path == [] then parent
    else MemberAbove(if path[0].Name? then Some(path[0].name) else parent, path[1..])
  }

  function Place(location: string, path: seq<Token>): string
    decreases |path|
  {
    if path == [] then location
    else Place(location + "/" + (match path[0] case Name(k) => k case Index(i) => Pointer.Decimal(i)), path[1..])
  }

  /** An object at `path` names the dataset `key`. */
  ghost predicate ReferredAt(v: Value, parent: Option<string>, path: seq<Token>, key: string) {
    var at := Below(v, path);
    at.Some? && at.value.Obj? && ReferenceOf(at.value.members, MemberAbove(parent, path)) == To(key)
  }

  ghost predicate UnversionedAt(v: Value, parent: Option<string>, path: seq<Token>) {
    var at := Below(v, path);
    at.Some? && at.value.Obj? && ReferenceOf(at.value.members, MemberAbove(parent, path)) == Unversioned
  }

  ghost predicate ReferredFrom(v: Value, location: string, parent: Option<string>, path: seq<Token>, r: (string, string)) {
    ReferredAt(v, parent, path, r.0) && r.1 == Place(location, path)
  }

  lemma BelowFirst(v: Value, location: string, parent: Option<string>, path: seq<Token>, first: Token)
    ensures Below(v, [first] + path) ==
            match first
            case Name(k) => if v.Obj? && k in v.members then Below(v.members[k], path) else None
            case Index(i) => if v.Arr? && i < |v.items| then Below(v.items[i], path) else None
    ensures MemberAbove(parent, [first] + path) == MemberAbove(if first.Name? then Some(first.name) else parent, path)
    ensures Place(location, [first] + path) ==
            Place(location + "/" + (match first case Name(k) => k case Index(i) => Pointer.Decimal(i)), path)
  {
    hide Pointer.Decimal;
    assert ([first] + path)[1..] == path;
  }

  /** The references of a document are those of the objects at all its places. */
  lemma {:induction false} ReferencesAtPlaces(v: Value, location: string, parent: Option<string>, r: (string, string))
    ensures r in References(v, location, parent) <==> exists path :: ReferredFrom(v, location, parent, path, r)
    decreases v
  {
    hide ReferenceOf, Pointer.Decimal;
    if r in References(v, location, parent) {
      var path := FoundAt(v, location, parent, r);
    }
    if path :| ReferredFrom(v, location, parent, path, r) {
      FoundBelow(v, location, parent, path, r);
    }
  }

  lemma {:induction false} FoundAt(v: Value, location: string, parent: Option<string>, r: (string, string)) returns (path: seq<Token>)
    requires r in References(v, location, parent)
    ensures ReferredFrom(v, location, parent, path, r)
    decreases v
  {
    hide ReferenceOf, Pointer.Decimal;
    path := [];
    match v
    case Obj(m) =>
      if r !in Own(m, location, parent) {
        var k :| k in m && r in References(m[k], location + "/" + k, Some(k));
        var rest := FoundAt(m[k], location + "/" + k, Some(k), r);
        path := [Name(k)] + rest;
        BelowFirst(v, location, parent, rest, Name(k));
      }
    case Arr(items) =>
      var i :| 0 <= i < |items| && r in References(items[i], location + "/" + Pointer.Decimal(i), parent);
      var rest := FoundAt(items[i], location + "/" + Pointer.Decimal(i), parent, r);
      path := [Index(i)] + rest;
      BelowFirst(v, location, parent, rest, Index(i));
    case _ =>
  }

  lemma {:induction false} FoundBelow(v: Value, location: string, parent: Option<string>, path: seq<Token>, r: (string, string))
    requires ReferredFrom(v, location, parent, path, r)
    ensures r in References(v, location, parent)
    decreases |path|
  {
    hide ReferenceOf, Pointer.Decimal;
    if path != [] {
      assert path == [path[0]] + path[1..];
      match path[0]
      case Name(k) => FoundBelow(v.members[k], location + "/" + k, Some(k), path[1..], r);
      case Index(i) => FoundBelow(v.items[i], location + "/" + Pointer.Decimal(i), parent, path[1..], r);
    }
  }

  lemma {:induction false} VersionedEverywhere(v: Value, parent: Option<string>)
    ensures AllVersioned(v, parent) <==> forall path :: !UnversionedAt(v, parent, path)
  {
    hide ReferenceOf, Pointer.Decimal;
    if !AllVersioned(v, parent) {
      var path := LacksAt(v, parent);
      assert UnversionedAt(v, parent, path);
    }
    if path :| UnversionedAt(v, parent, path) {
      LacksBelow(v, parent, path);
    }
  }

  lemma {:induction false} LacksAt(v: Value, parent: Option<string>) returns (path: seq<Token>)
    requires !AllVersioned(v, parent)
    ensures UnversionedAt(v, parent, path)
    decreases v
  {
    hide ReferenceOf, Pointer.Decimal;
    path := [];
    match v
    case Obj(m) =>
      if ReferenceOf(m, parent) != Unversioned {
        var k :| k in m && !AllVersioned(m[k], Some(k));
        var rest := LacksAt(m[k], Some(k));
        path := [Name(k)] + rest;
        BelowFirst(v, "", parent, rest, Name(k));
      }
    case Arr(items) =>
      var i :| 0 <= i < |items| && !AllVersioned(items[i], parent);
      var rest := LacksAt(items[i], parent);
      path := [Index(i)] + rest;
      BelowFirst(v, "", parent, rest, Index(i));
    case _ =>
  }

  lemma {:induction false} LacksBelow(v: Value, parent: Option<string>, path: seq<Token>)
    requires UnversionedAt(v, parent, path)
    ensures !AllVersioned(v, parent)
    decreases |path|
  {
    hide ReferenceOf, Pointer.Decimal;
    if path != [] {
      match path[0]
      case Name(k) => LacksBelow(v.members[k], Some(k), path[1..]);
      case Index(i) => LacksBelow(v.items[i], parent, path[1..]);
    }
  }

  // ---------- the edges of the closure ----------

  /** Some object of the document names a dataset of one of the eight types with the version, and this is its key. */
  ghost predicate Mentions(v: Value, key: string) {
    exists path, i :: 0 <= i < |REFERENCE_TYPES| && MentionsAt(v, path, i, key)
  }

  ghost predicate MentionsAt(v: Value, path: seq<Token>, i: nat, key: string)
    requires i < |REFERENCE_TYPES|
  {
    var at := Below(v, path);
    && at.Some? && at.value.Obj? && NamesDataset(at.value.members, MemberAbove(None, path), i)
    && NamesVersion(at.value.members) && key == KeyNamed(at.value.members, i)
  }

  /** The closure goes from a readable entry to exactly the keys that its document mentions. */
  lemma {:induction false} EdgesAreMentions(w: Input, e: DatasetEntry, key: string)
    requires Ascending(w.index) && e in w.index && w.document(e).Some?
    ensures Edge(w, e.Key(), key) <==> Mentions(w.document(e).value, key)
  {
    var v := w.document(e).value;
    OutgoingOf(w, e);
    hide Outgoing, References, NamesDataset, NamesVersion, ReferenceOf, Ascending, DatasetEntry.Key, Below, MemberAbove, Place;
    if Edge(w, e.Key(), key) {
      var location: string :| (key, location) in Outgoing(w, e.Key());
      ReferencesAtPlaces(v, "$", None, (key, location));
      var path :| ReferredFrom(v, "$", None, path, (key, location));
      ReferenceIs(Below(v, path).value.members, MemberAbove(None, path), key);
      var i :| 0 <= i < |REFERENCE_TYPES| && NamesDataset(Below(v, path).value.members, MemberAbove(None, path), i) &&
               NamesVersion(Below(v, path).value.members) && key == KeyNamed(Below(v, path).value.members, i);
      assert MentionsAt(v, path, i, key);
    }
    if Mentions(v, key) {
      var path, i :| 0 <= i < |REFERENCE_TYPES| && MentionsAt(v, path, i, key);
      ReferenceIs(Below(v, path).value.members, MemberAbove(None, path), key);
      assert ReferredFrom(v, "$", None, path, (key, Place("$", path)));
      ReferencesAtPlaces(v, "$", None, (key, Place("$", path)));
    }
  }
}
