/** Version normalization of an exported package, from versioning.rs. */
module Versions {
  import opened Json
  import opened TextOrder
  import DatasetIndex
  import XmlText
  import opened VersionRules

  const PRECEDING_KEYS: set<string> :=
    {"common:referenceToPrecedingDataSetVersion", "referenceToPrecedingDataSetVersion"}

  /** A dataset is a category with an identifier. */
  type Dataset = (string, string)

  /** What the package holds: the greatest version of each dataset, and the datasets with several. */
  datatype World = World(latest: map<Dataset, string>, several: set<Dataset>)

  // ---------- file names and links ----------

  function SuffixOf(uri: string): Option<string> {
    if EndsWith(uri, ".xml") then Some(".xml") else if EndsWith(uri, ".json") then Some(".json") else None
  }

  /** A link that ends in a versioned file name. */
  function Versioned(uri: string): Option<Link> {
    match SuffixOf(uri)
    case None => None
    case Some(suffix) =>
      var n := |uri| - |suffix|;
      if n >= 46 && VersionText(uri[n - 9..n]) && uri[n - 10] == '_' && UuidText(uri[n - 46..n - 10]) then
        Some(Link(uri[..n - 46], uri[n - 46..n - 10], uri[n - 9..n], suffix))
      else None
  }

  function Unversioned(uri: string): Option<string> {
    match SuffixOf(uri)
    case None => None
    case Some(suffix) =>
      var n := |uri| - |suffix|;
      if n >= 36 && UuidText(uri[n - 36..n]) then Some(uri[n - 36..n]) else None
  }

  function CategoryInUri(uri: string, categories: seq<string>): Option<string> {
    if categories == [] then None
    else if Contains(uri, "/" + categories[0] + "/") then Some(categories[0])
    else CategoryInUri(uri, categories[1..])
  }

  function CategoryFromType(value: string): Option<string> {
    match DatasetIndex.Lower(XmlText.Trim(value))
    case "contact data set" => Some("contacts")
    case "flow property data set" => Some("flowproperties")
    case "flow data set" => Some("flows")
    case "lcia method data set" => Some("lciamethods")
    case "life cycle model data set" => Some("lifecyclemodels")
    case "lifecycle model data set" => Some("lifecyclemodels")
    case "process data set" => Some("processes")
    case "source data set" => Some("sources")
    case "compliance system" => Some("sources")
    case "ilcddataformatreference" => Some("sources")
    case "datasetformat" => Some("sources")
    case "ilcdformatglobalreference" => Some("sources")
    case "unit group data set" => Some("unitgroups")
    case _ => None
  }

  function Text(members: map<string, Value>, name: string): Option<string> {
    if name in members && members[name].Str? then Some(members[name].value) else None
  }

  function OrElse<T>(a: Option<T>, b: Option<T>): Option<T> {
    if a.Some? then a else b
  }

  function Category(uri: string, kind: Option<string>): Option<string> {
    OrElse(CategoryInUri(uri, CATEGORIES), match kind case None => None case Some(t) => CategoryFromType(t))
  }

  /** What a reference points to, from its own fields first and its link otherwise. */
  function TargetFrom(uri: string, kind: Option<string>, id: Option<string>, version: Option<string>): Option<Target> {
    match Category(uri, kind)
    case None => None
    case Some(category) =>
      var link := Versioned(uri);
      var uuid := OrElse(id, if link.Some? then Some(link.value.uuid) else Unversioned(uri));
      match uuid
      case None => None
      case Some(u) => Some(Target(category, u, OrElse(version, if link.Some? then Some(link.value.version) else None)))
  }

  function InferTarget(members: map<string, Value>): Option<Target> {
    TargetFrom(OrElse(Text(members, "@uri"), Some("")).value, Text(members, "@type"), Text(members, "@refObjectId"),
               Text(members, "@version"))
  }

  function RewriteUri(uri: string, uuid: string, latest: string): string {
    match Versioned(uri)
    case None => uri
    case Some(l) => if l.uuid != uuid then uri else LinkText(l.(version := latest))
  }

  // ---------- normalizing a document ----------

  predicate Refers(x: Value) {
    x.Obj? && "@refObjectId" in x.members && InferTarget(x.members).Some?
  }

  function DatasetOf(x: Value): Dataset
    requires Refers(x)
  {
    var t := InferTarget(x.members).value;
    (t.category, t.uuid)
  }

  /** A link to an earlier version of a dataset that the package has several versions of. */
  predicate RemovedLink(w: World, key: string, x: Value) {
    Refers(x) && key in PRECEDING_KEYS && DatasetOf(x) in w.several
  }

  /** A reference with a version other than the latest of a dataset in the package. */
  predicate Outdated(w: World, x: Value) {
    Refers(x) && InferTarget(x.members).value.version.Some? && DatasetOf(x) in w.latest &&
    InferTarget(x.members).value.version.value != w.latest[DatasetOf(x)]
  }

  function UriRefreshed(members: map<string, Value>, uuid: string, latest: string): map<string, Value> {
    match Text(members, "@uri")
    case None => members
    case Some(uri) => members["@uri" := Str(RewriteUri(uri, uuid, latest))]
  }

  function Refreshed(w: World, x: Value): Value
    requires Outdated(w, x)
  {
    var latest := w.latest[DatasetOf(x)];
    Obj(UriRefreshed(x.members["@version" := Str(latest)], DatasetOf(x).1, latest))
  }

  /** The document with earlier-version links removed and outdated references refreshed, at every depth. */
  function NormalizeValue(w: World, v: Value): Value
    decreases v, 0
  {
    match v
    case Obj(m) => Obj(map k | k in m && !RemovedLink(w, k, m[k]) :: NormalizeMember(w, m[k]))
    case Arr(items) => Arr(seq(|items|, i requires 0 <= i < |items| => NormalizeValue(w, items[i])))
    case _ => v
  }

  function NormalizeMember(w: World, x: Value): Value
    decreases x, 1
  {
    var n := NormalizeValue(w, x);
    if Outdated(w, x) then
      var latest := w.latest[DatasetOf(x)];
      if n.Obj? then Obj(UriRefreshed(n.members["@version" := Str(latest)], DatasetOf(x).1, latest)) else n
    else n
  }

  /** No link to an earlier version and no outdated reference is left as a direct member value, at any depth. */
  ghost predicate Current(w: World, v: Value) {
    match v
    case Obj(m) => forall k :: k in m ==> !RemovedLink(w, k, m[k]) && !Outdated(w, m[k]) && Current(w, m[k])
    case Arr(items) => forall i :: 0 <= i < |items| ==> Current(w, items[i])
    case _ => true
  }

  // ---------- strings ----------

  lemma EndsWithParts(a: string, b: string)
    ensures EndsWith(a + b, b)
  {
    assert (a + b)[|a|..] == b;
  }

  lemma SuffixKeeps(a: string, suffix: string)
    requires suffix == ".xml" || suffix == ".json"
    ensures SuffixOf(a + suffix) == Some(suffix)
  {
    EndsWithParts(a, suffix);
    var s := a + suffix;
    if suffix == ".json" {
      assert s[|s| - 1] == 'n';
      assert ".xml"[3] == 'l';
      assert s[|s| - 4..][3] == 'n';
    }
  }

  /** Where the parts of a link with these lengths stand. */
  lemma LinkPlaces(before: string, uuid: string, version: string, suffix: string)
    requires |uuid| == 36 && |version| == 9
    ensures var s := before + uuid + "_" + version + suffix;
            var n := |before| + 46;
            && |s| == n + |suffix| && s[..n - 46] == before && s[n - 46..n - 10] == uuid && s[n - 10] == '_'
            && s[n - 9..n] == version && s[n..] == suffix
  {
  }

  /** Printing a link and reading it back. */
  lemma {:induction false} VersionedLink(l: Link)
    requires UuidText(l.uuid) && VersionText(l.version) && (l.suffix == ".xml" || l.suffix == ".json")
    ensures Versioned(LinkText(l)) == Some(l)
  {
    var body := l.before + (l.uuid + "_" + l.version);
    var uri := LinkText(l);
    assert uri == body + l.suffix;
    SuffixKeeps(body, l.suffix);
    var n := |body|;
    assert |l.uuid| == 36 && |l.version| == 9;
    hide VersionText, UuidText, SuffixOf;
    LinkPlaces(l.before, l.uuid, l.version, l.suffix);
    assert uri == l.before + l.uuid + "_" + l.version + l.suffix;
    assert |uri| - |l.suffix| == n == |l.before| + 46;
  }

  lemma Glue(s: string, a: nat, b: nat, c: nat, d: nat)
    requires a <= b <= c <= d <= |s|
    ensures s == s[..a] + s[a..b] + s[b..c] + s[c..d] + s[d..]
  {
  }

  lemma {:induction false} VersionedParts(uri: string)
    requires Versioned(uri).Some?
    ensures var l := Versioned(uri).value;
            uri == LinkText(l) && UuidText(l.uuid) && VersionText(l.version) && (l.suffix == ".xml" || l.suffix == ".json")
  {
    var l := Versioned(uri).value;
    var n := |uri| - |l.suffix|;
    assert uri[n..] == l.suffix;
    hide VersionText, UuidText;
    assert uri[n - 10..n - 9] == "_";
    Glue(uri, n - 46, n - 10, n - 9, n);
    assert l.before + l.uuid + "_" + l.version + l.suffix == LinkText(l);
  }

  lemma {:induction false} ContainsBefore(a: string, b: string, needle: string)
    requires needle != "" && needle[|needle| - 1] == '/' && '/' !in b
    ensures Contains(a + b, needle) <==> Contains(a, needle)
  {
    forall i | |a| <= i < |a + b|
      ensures (a + b)[i] != '/'
    {
      assert (a + b)[i] == b[i - |a|];
    }
    assert needle <= a + b <==> needle <= a;
    if a == "" {
      NoSlash(b, needle);
      assert a + b == b;
    } else {
      assert (a + b)[1..] == a[1..] + b;
      ContainsBefore(a[1..], b, needle);
    }
  }

  lemma {:induction false} NoSlash(b: string, needle: string)
    requires needle != "" && needle[|needle| - 1] == '/' && '/' !in b
    ensures !Contains(b, needle)
  {
    assert forall i :: 0 <= i < |b| ==> b[i] != '/';
    if b != "" {
      NoSlash(b[1..], needle);
    }
  }

  lemma {:induction false} SameCategory(a: string, b: string, c: string, categories: seq<string>)
    requires '/' !in b && '/' !in c
    ensures CategoryInUri(a + b, categories) == CategoryInUri(a + c, categories)
  {
    if categories != [] {
      var needle := "/" + categories[0] + "/";
      ContainsBefore(a, b, needle);
      ContainsBefore(a, c, needle);
      SameCategory(a, b, c, categories[1..]);
    }
  }

  lemma {:induction false} NameHasNoSlash(l: Link)
    requires UuidText(l.uuid) && VersionText(l.version) && (l.suffix == ".xml" || l.suffix == ".json")
    ensures '/' !in l.uuid + "_" + l.version + l.suffix
  {
    assert forall i :: 0 <= i < |l.uuid| ==> l.uuid[i] != '/';
    assert forall i :: 0 <= i < |l.version| ==> l.version[i] != '/';
  }

  /** A link with another version leads to the same category and file, at that version. */
  lemma {:induction false} RewrittenLink(uri: string, latest: string)
    requires Versioned(uri).Some? && VersionText(latest)
    ensures var l := Versioned(uri).value;
            && RewriteUri(uri, l.uuid, latest) == LinkText(l.(version := latest))
            && Versioned(LinkText(l.(version := latest))) == Some(l.(version := latest))
            && CategoryInUri(LinkText(l.(version := latest)), CATEGORIES) == CategoryInUri(uri, CATEGORIES)
  {
    var l := Versioned(uri).value;
    VersionedParts(uri);
    VersionedLink(l.(version := latest));
    NameHasNoSlash(l);
    NameHasNoSlash(l.(version := latest));
    hide VersionText, UuidText, Versioned, CategoryInUri;
    SameCategory(l.before, l.uuid + "_" + l.version + l.suffix, l.uuid + "_" + latest + l.suffix, CATEGORIES);
  }

  /** Refreshing a reference keeps what it points to and makes its version the latest. */
  lemma {:induction false} RefreshedTarget(uri: string, kind: Option<string>, id: Option<string>, version: Option<string>,
                                           latest: string)
    requires TargetFrom(uri, kind, id, version).Some? && VersionText(latest)
    ensures var t := TargetFrom(uri, kind, id, version).value;
            TargetFrom(RewriteUri(uri, t.uuid, latest), kind, id, Some(latest)) == Some(t.(version := Some(latest)))
  {
    if Versioned(uri).Some? {
      RewrittenLink(uri, latest);
    }
    hide CategoryFromType, CategoryInUri, Versioned, LinkText, Unversioned, VersionText;
  }

  // ---------- what normalization reaches ----------

  /** Members that decide what a reference points to keep their text. */
  lemma {:induction false} NormalizedText(w: World, m: map<string, Value>, name: string)
    requires name !in PRECEDING_KEYS
    ensures var n := NormalizeValue(w, Obj(m));
            && n.Obj? && (name in n.members <==> name in m)
            && Text(n.members, name) == Text(m, name)
  {
    hide InferTarget, UriRefreshed;
    if name in m {
      assert !RemovedLink(w, name, m[name]);
      assert m[name].Str? <==> NormalizeMember(w, m[name]).Str?;
    }
  }

  lemma FieldNames()
    ensures "@uri" !in PRECEDING_KEYS && "@type" !in PRECEDING_KEYS && "@refObjectId" !in PRECEDING_KEYS && "@version" !in PRECEDING_KEYS
    ensures "@uri" != "@version" && "@type" != "@version" && "@refObjectId" != "@version"
    ensures "@type" != "@uri" && "@refObjectId" != "@uri"
  {
    assert "@uri"[1] == 'u' && "@type"[1] == 't' && "@refObjectId"[1] == 'r' && "@version"[1] == 'v';
    assert forall k :: k in PRECEDING_KEYS ==> k[0] == 'c' || k[0] == 'r';
    assert "@uri"[0] == '@' && "@type"[0] == '@' && "@refObjectId"[0] == '@' && "@version"[0] == '@';
  }

  /** Every latest version is a version. */
  ghost predicate VersionsWritten(w: World) {
    forall d :: d in w.latest ==> VersionText(w.latest[d])
  }

  lemma {:induction false} SameTarget(w: World, x: Value)
    requires x.Obj?
    ensures var n := NormalizeValue(w, x);
            n.Obj? && InferTarget(n.members) == InferTarget(x.members) && (Refers(n) <==> Refers(x))
  {
    FieldNames();
    hide NormalizeValue, TargetFrom, PRECEDING_KEYS;
    NormalizedText(w, x.members, "@uri");
    NormalizedText(w, x.members, "@type");
    NormalizedText(w, x.members, "@refObjectId");
    NormalizedText(w, x.members, "@version");
  }

  lemma {:induction false} RefreshedFields(m: map<string, Value>, uuid: string, latest: string)
    ensures var y := UriRefreshed(m["@version" := Str(latest)], uuid, latest);
            && Text(y, "@version") == Some(latest) && Text(y, "@type") == Text(m, "@type")
            && Text(y, "@refObjectId") == Text(m, "@refObjectId") && ("@refObjectId" in y <==> "@refObjectId" in m)
            && OrElse(Text(y, "@uri"), Some("")).value == RewriteUri(OrElse(Text(m, "@uri"), Some("")).value, uuid, latest)
  {
    FieldNames();
    assert Versioned("") == None;
    hide Versioned, PRECEDING_KEYS;
  }

  lemma {:induction false} RefreshKeepsTarget(m: map<string, Value>, latest: string)
    requires InferTarget(m).Some? && VersionText(latest)
    ensures var t := InferTarget(m).value;
            var y := UriRefreshed(m["@version" := Str(latest)], t.uuid, latest);
            InferTarget(y) == Some(t.(version := Some(latest))) && ("@refObjectId" in y <==> "@refObjectId" in m)
  {
    hide TargetFrom, UriRefreshed, VersionText, RewriteUri;
    RefreshedTarget(OrElse(Text(m, "@uri"), Some("")).value, Text(m, "@type"), Text(m, "@refObjectId"),
                    Text(m, "@version"), latest);
    RefreshedFields(m, InferTarget(m).value.uuid, latest);
  }

  /** A member that stays points to the same dataset, at the latest version if it has one. */
  lemma {:induction false} MemberIsCurrent(w: World, key: string, x: Value)
    requires VersionsWritten(w) && !RemovedLink(w, key, x)
    ensures var y := NormalizeMember(w, x); !RemovedLink(w, key, y) && !Outdated(w, y)
  {
    hide NormalizeValue, InferTarget, UriRefreshed, VersionText;
    if x.Obj? {
      SameTarget(w, x);
      if Outdated(w, x) {
        RefreshKeepsTarget(NormalizeValue(w, x).members, w.latest[DatasetOf(x)]);
      }
    } else {
      SameKind(w, x);
    }
  }

  lemma SameKind(w: World, x: Value)
    ensures NormalizeValue(w, x).Obj? <==> x.Obj?
    ensures !x.Obj? && !x.Arr? ==> NormalizeValue(w, x) == x
  {
  }

  /** After normalization nothing is left to remove or to refresh, at any depth. */
  lemma {:induction false} NormalizedIsCurrent(w: World, v: Value)
    requires VersionsWritten(w)
    ensures Current(w, NormalizeValue(w, v))
    decreases v, 0
  {
    match v
    case Obj(m) =>
      hide InferTarget, RemovedLink, Outdated, UriRefreshed, VersionsWritten;
      forall k | k in m && !RemovedLink(w, k, m[k])
        ensures !RemovedLink(w, k, NormalizeMember(w, m[k])) && !Outdated(w, NormalizeMember(w, m[k]))
        ensures Current(w, NormalizeMember(w, m[k]))
      {
        MemberIsCurrent(w, k, m[k]);
        MemberBelowCurrent(w, m[k]);
      }
    case Arr(items) =>
      forall i | 0 <= i < |items|
        ensures Current(w, NormalizeValue(w, items[i]))
      {
        NormalizedIsCurrent(w, items[i]);
      }
    case _ =>
  }

  lemma {:induction false} MemberBelowCurrent(w: World, x: Value)
    requires VersionsWritten(w)
    ensures Current(w, NormalizeMember(w, x))
    decreases x, 1
  {
    NormalizedIsCurrent(w, x);
    hide NormalizeValue, InferTarget, VersionsWritten, UriRefreshed, Current, Refers;
    var n := NormalizeValue(w, x);
    if Outdated(w, x) && n.Obj? {
      RefreshedCurrent(w, n.members, DatasetOf(x).1, w.latest[DatasetOf(x)]);
    }
  }

  lemma RefreshedCurrent(w: World, m: map<string, Value>, uuid: string, latest: string)
    requires Current(w, Obj(m))
    ensures Current(w, Obj(UriRefreshed(m["@version" := Str(latest)], uuid, latest)))
  {
    var n := UriRefreshed(m["@version" := Str(latest)], uuid, latest);
    assert forall k :: k in n ==> n[k].Str? || (k in m && n[k] == m[k]);
    hide RemovedLink, Outdated, UriRefreshed;
    forall k | k in n
      ensures !RemovedLink(w, k, n[k]) && !Outdated(w, n[k]) && Current(w, n[k])
    {
      TextRefersToNothing(w, k, n[k]);
    }
  }

  lemma TextRefersToNothing(w: World, k: string, v: Value)
    ensures v.Str? ==> !RemovedLink(w, k, v) && !Outdated(w, v) && Current(w, v)
  {
  }

  /** A current document is left alone. */
  lemma {:induction false} CurrentUnchanged(w: World, v: Value)
    requires Current(w, v)
    ensures NormalizeValue(w, v) == v
    decreases v
  {
    match v
    case Obj(m) =>
      hide RemovedLink, Outdated;
      forall k | k in m
        ensures NormalizeMember(w, m[k]) == m[k]
      {
        CurrentUnchanged(w, m[k]);
      }
      assert (map k | k in m && !RemovedLink(w, k, m[k]) :: NormalizeMember(w, m[k])) == m;
    case Arr(items) =>
      forall i | 0 <= i < |items|
        ensures NormalizeValue(w, items[i]) == items[i]
      {
        CurrentUnchanged(w, items[i]);
      }
      assert seq(|items|, i requires 0 <= i < |items| => NormalizeValue(w, items[i])) == items;
    case _ =>
  }

  /** With the same latest versions and nothing to remove, being current stays. */
  lemma {:induction false} CurrentLater(w: World, v: Value)
    requires Current(w, v)
    ensures Current(World(w.latest, {}), v)
    decreases v
  {
    match v
    case Obj(m) =>
      forall k | k in m
        ensures Current(World(w.latest, {}), m[k])
      {
        CurrentLater(w, m[k]);
      }
    case Arr(items) =>
      forall i | 0 <= i < |items|
        ensures Current(World(w.latest, {}), items[i])
      {
        CurrentLater(w, items[i]);
      }
    case _ =>
  }

  /** So a second normalization, when no dataset has several versions any more, changes nothing. */
  lemma {:induction false} SecondRunUnchanged(w: World, v: Value)
    requires VersionsWritten(w)
    ensures NormalizeValue(World(w.latest, {}), NormalizeValue(w, v)) == NormalizeValue(w, v)
  {
    NormalizedIsCurrent(w, v);
    CurrentLater(w, NormalizeValue(w, v));
    CurrentUnchanged(World(w.latest, {}), NormalizeValue(w, v));
  }

  // ---------- the walk that rewrites a document ----------

  /** A refreshed map: its own version, its own link, and otherwise the members it had. */
  lemma RefreshedAt(m: map<string, Value>, uuid: string, latest: string, k: string)
    ensures var y := UriRefreshed(m["@version" := Str(latest)], uuid, latest);
            && (k in y <==> k in m || k == "@version")
            && (k != "@version" && k != "@uri" && k in m ==> y[k] == m[k])
            && y["@version"] == Str(latest)
            && ("@uri" in m ==> y["@uri"] == if m["@uri"].Str? then Str(RewriteUri(m["@uri"].value, uuid, latest)) else m["@uri"])
  {
    FieldNames();
    hide RewriteUri, PRECEDING_KEYS;
  }

  lemma NormalizedAt(w: World, m: map<string, Value>, k: string)
    ensures var n := NormalizeValue(w, Obj(m));
            && n.Obj? && (k in n.members <==> k in m && !RemovedLink(w, k, m[k]))
            && (k in n.members ==> n.members[k] == NormalizeMember(w, m[k]))
  {
    hide RemovedLink, NormalizeMember;
  }

  lemma TextStays(w: World, k: string, x: Value)
    ensures x.Str? ==> !RemovedLink(w, k, x) && NormalizeMember(w, x) == x
  {
  }

  lemma UriStays(w: World, x: Value)
    ensures !RemovedLink(w, "@uri", x) && (NormalizeMember(w, x).Str? <==> x.Str?)
  {
    FieldNames();
  }

  /** Refreshing a reference before or after normalizing below it is the same. */
  lemma {:induction false} RefreshThenNormalize(w: World, x: Value)
    requires Outdated(w, x)
    ensures NormalizeValue(w, Refreshed(w, x)) == NormalizeMember(w, x)
  {
    FieldNames();
    SameKind(w, x);
    var latest, uuid := w.latest[DatasetOf(x)], DatasetOf(x).1;
    var m, n, r := x.members, NormalizeValue(w, x).members, Refreshed(w, x).members;
    var y := NormalizeMember(w, x).members;
    hide InferTarget, PRECEDING_KEYS, RewriteUri, NormalizeValue, NormalizeMember, RemovedLink, UriRefreshed;
    forall k
      ensures k in NormalizeValue(w, Obj(r)).members <==> k in y
      ensures k in y ==> NormalizeValue(w, Obj(r)).members[k] == y[k]
    {
      RefreshedAt(m, uuid, latest, k);
      RefreshedAt(n, uuid, latest, k);
      NormalizedAt(w, r, k);
      NormalizedAt(w, m, k);
      TextStays(w, k, r["@version"]);
      if k == "@uri" && k in m {
        UriStays(w, m["@uri"]);
        TextStays(w, "@uri", m["@uri"]);
        TextStays(w, "@uri", r["@uri"]);
      }
    }
    NormalizedAt(w, r, "@version");
    assert NormalizeValue(w, Obj(r)).members == y;
  }

  lemma {:induction false} OutdatedChanges(w: World, x: Value)
    requires Outdated(w, x)
    ensures NormalizeMember(w, x) != x
  {
    var y := NormalizeMember(w, x);
    FieldNames();
    SameKind(w, x);
    var latest := w.latest[DatasetOf(x)];
    hide NormalizeValue, Versioned, Category, RewriteUri;
    RefreshedFields(NormalizeValue(w, x).members, DatasetOf(x).1, latest);
    assert Text(y.members, "@version") == Some(latest);
  }

  /** The object after normalizing the members not in `left`. */
  ghost function Partly(w: World, m: map<string, Value>, left: set<string>): map<string, Value> {
    map k | k in m && (k in left || !RemovedLink(w, k, m[k])) :: if k in left then m[k] else NormalizeMember(w, m[k])
  }

  ghost predicate Touched(w: World, m: map<string, Value>, k: string)
    requires k in m
  {
    RemovedLink(w, k, m[k]) || NormalizeMember(w, m[k]) != m[k]
  }

  /** Whether normalizing one of these members changes it. */
  ghost predicate AnyTouched(w: World, m: map<string, Value>, keys: set<string>) {
    exists k :: k in keys && k in m && Touched(w, m, k)
  }

  lemma {:induction false} TouchedStep(w: World, m: map<string, Value>, left: set<string>, k: string)
    requires left <= m.Keys && k in left
    ensures AnyTouched(w, m, m.Keys - (left - {k})) <==> AnyTouched(w, m, m.Keys - left) || Touched(w, m, k)
  {
    hide Touched;
    assert m.Keys - (left - {k}) == (m.Keys - left) + {k};
  }

  lemma {:induction false} PartlyStep(w: World, m: map<string, Value>, left: set<string>, k: string)
    requires k in left && k in m
    ensures Partly(w, m, left - {k}) == if RemovedLink(w, k, m[k]) then Partly(w, m, left) - {k}
                                        else Partly(w, m, left)[k := NormalizeMember(w, m[k])]
  {
    hide RemovedLink, NormalizeMember;
  }

  lemma {:induction false} PartlyDone(w: World, m: map<string, Value>)
    ensures Partly(w, m, m.Keys) == m
    ensures Obj(Partly(w, m, {})) == NormalizeValue(w, Obj(m))
    ensures NormalizeValue(w, Obj(m)) != Obj(m) <==> AnyTouched(w, m, m.Keys - {})
    ensures !AnyTouched(w, m, m.Keys - m.Keys)
  {
    hide RemovedLink, NormalizeMember;
    var n := NormalizeValue(w, Obj(m)).members;
    if n == m {
      forall k | k in m
        ensures !Touched(w, m, k)
      {
        assert k in n;
      }
    }
    assert (forall k :: k in m ==> !Touched(w, m, k)) ==> n == m;
  }

  /** Everything of `v` below a member is below that member of `shape` too. */
  ghost predicate Shaped(v: Value, shape: Value) {
    v == shape ||
    (v.Obj? && shape.Obj? && forall k :: k in v.members && !v.members[k].Str? ==>
       k in shape.members && shape.members[k] == v.members[k])
  }

  /**
   * Walks a document, drops and refreshes members as it goes and then descends into what is there; reports
   * whether anything is different.
   */
  method NormalizeNode(w: World, v: Value, ghost shape: Value) returns (out: Value, changed: bool)
    requires Shaped(v, shape)
    ensures out == NormalizeValue(w, v) && (changed <==> out != v)
    decreases shape, 1
  {
    out, changed := v, false;
    if v.Obj? {
      hide RemovedLink, Outdated, NormalizeMember, NormalizeValue, Refreshed, Partly, AnyTouched;
      var m := v.members;
      PartlyDone(w, m);
      var now, left := m, m.Keys;
      while left != {}
        invariant left <= m.Keys && now == Partly(w, m, left)
        invariant changed <==> AnyTouched(w, m, m.Keys - left)
        decreases |left|
      {
        var key :| key in left;
        PartlyStep(w, m, left, key);
        TouchedStep(w, m, left, key);
        left := left - {key};
        if RemovedLink(w, key, m[key]) {
          now := now - {key};
          changed := true;
        } else {
          ScalarStays(w, m[key]);
          if m[key].Obj? || m[key].Arr? {
            var child, different := NormalizeChild(w, m[key]);
            now := now[key := child];
            changed := changed || different;
          }
        }
      }
      out := Obj(now);
    } else if v.Arr? {
      out, changed := NormalizeItems(w, v);
    }
  }

  lemma ScalarStays(w: World, x: Value)
    ensures !x.Obj? && !x.Arr? ==> NormalizeMember(w, x) == x
  {
  }

  /** Refreshes one member if it is outdated, then normalizes below it. */
  method NormalizeChild(w: World, x: Value) returns (out: Value, changed: bool)
    ensures out == NormalizeMember(w, x) && (changed <==> out != x)
    decreases x, 2
  {
    if Outdated(w, x) {
      RefreshedShape(w, x);
      RefreshThenNormalize(w, x);
      OutdatedChanges(w, x);
      hide NormalizeMember, NormalizeValue, Refreshed, Outdated, Shaped;
      var updated := Refreshed(w, x);
      out, changed := NormalizeNode(w, updated, x);
      changed := true;
    } else {
      out, changed := NormalizeNode(w, x, x);
    }
  }

  lemma RefreshedShape(w: World, x: Value)
    requires Outdated(w, x)
    ensures Shaped(Refreshed(w, x), x)
  {
    hide InferTarget, RewriteUri;
  }

  method NormalizeItems(w: World, v: Value) returns (out: Value, changed: bool)
    requires v.Arr?
    ensures out == NormalizeValue(w, v) && (changed <==> out != v)
    decreases v, 0
  {
    hide NormalizeValue;
    var now: seq<Value> := [];
    changed := false;
    for i := 0 to |v.items|
      invariant |now| == i && forall j :: 0 <= j < i ==> now[j] == NormalizeValue(w, v.items[j])
      invariant changed <==> now != v.items[..i]
    {
      var item, different := NormalizeNode(w, v.items[i], v.items[i]);
      now := now + [item];
      changed := changed || different;
      assert v.items[..i + 1] == v.items[..i] + [v.items[i]];
    }
    assert v.items[..|v.items|] == v.items;
    ItemsNormalized(w, v, now);
    out := Arr(now);
  }

  lemma ItemsNormalized(w: World, v: Value, now: seq<Value>)
    requires v.Arr? && |now| == |v.items| && forall j :: 0 <= j < |now| ==> now[j] == NormalizeValue(w, v.items[j])
    ensures Arr(now) == NormalizeValue(w, v)
  {
    assert now == NormalizeValue(w, v).items;
  }

  // ---------- the package ----------

  function Of(r: Record): Dataset {
    (r.category, r.uuid)
  }

  /** The dataset of `r` is known with no smaller version than that of `r`. */
  predicate Bounds(w: World, r: Record) {
    Of(r) in w.latest && StrLe(r.version, w.latest[Of(r)])
  }

  predicate LatestIn(rs: set<Record>, w: World, d: Dataset)
    requires d in w.latest
  {
    Record(d.0, d.1, w.latest[d]) in rs
  }

  ghost predicate HasSeveral(rs: set<Record>, d: Dataset) {
    exists a, b :: a in rs && b in rs && Of(a) == d && Of(b) == d && a.version != b.version
  }

  /** `w` describes the records: greatest versions by string order, and datasets with two or more. */
  ghost predicate WorldOf(rs: set<Record>, w: World) {
    && (forall r {:trigger Bounds(w, r)} :: r in rs ==> Bounds(w, r))
    && (forall d {:trigger LatestIn(rs, w, d)} :: d in w.latest ==> LatestIn(rs, w, d))
    && (forall d {:trigger HasSeveral(rs, d)} :: d in w.several <==> HasSeveral(rs, d))
  }

  predicate IsLatest(w: World, r: Record) {
    Of(r) in w.latest && w.latest[Of(r)] == r.version
  }

  /** The package that normalization leaves. */
  ghost function Normalized(files: map<Record, Value>, w: World): map<Record, Value> {
    map r | r in files && IsLatest(w, r) :: NormalizeValue(w, files[r])
  }

  /** Exactly one record of each dataset is left, and it is the greatest. */
  lemma {:induction false} OnePerDataset(files: map<Record, Value>, w: World, r: Record)
    requires WorldOf(files.Keys, w) && r in files
    ensures Of(r) in w.latest
    ensures var kept := Record(r.category, r.uuid, w.latest[Of(r)]);
            && kept in Normalized(files, w)
            && (forall s :: s in Normalized(files, w) && Of(s) == Of(r) ==> s == kept)
            && (forall s :: s in files && Of(s) == Of(r) ==> StrLe(s.version, kept.version))
  {
    hide NormalizeValue, StrLe;
    assert Bounds(w, r);
    assert LatestIn(files.Keys, w, Of(r));
    forall s | s in files && Of(s) == Of(r)
      ensures StrLe(s.version, w.latest[Of(r)])
    {
      assert Bounds(w, s);
    }
  }

  lemma WorldAt(rs: set<Record>, w: World, d: Dataset)
    requires WorldOf(rs, w)
    ensures d in w.latest ==> Record(d.0, d.1, w.latest[d]) in rs
    ensures forall r :: r in rs && Of(r) == d ==> d in w.latest
    ensures d in w.several <==> HasSeveral(rs, d)
  {
    hide StrLe;
    if d in w.latest {
      assert LatestIn(rs, w, d);
    }
    forall r | r in rs && Of(r) == d
      ensures d in w.latest
    {
      assert Bounds(w, r);
    }
  }

  lemma {:induction false} SecondWorldAt(files: map<Record, Value>, w: World, w2: World, d: Dataset)
    requires WorldOf(files.Keys, w) && WorldOf(Normalized(files, w).Keys, w2)
    ensures d in w2.latest <==> d in w.latest
    ensures d in w.latest ==> w2.latest[d] == w.latest[d]
    ensures d !in w2.several
  {
    WorldAt(files.Keys, w, d);
    WorldAt(Normalized(files, w).Keys, w2, d);
    hide WorldOf, NormalizeValue;
    if d in w.latest {
      var kept := Record(d.0, d.1, w.latest[d]);
      assert Of(kept) == d && kept in Normalized(files, w);
    }
    if d in w2.latest {
      var r := Record(d.0, d.1, w2.latest[d]);
      assert r in Normalized(files, w) && Of(r) == d;
    }
  }

  /** After one normalization the package has one version of everything and a second changes nothing. */
  lemma {:induction false} SecondRunChangesNothing(files: map<Record, Value>, w: World, w2: World)
    requires WorldOf(files.Keys, w) && forall r :: r in files ==> VersionText(r.version)
    requires WorldOf(Normalized(files, w).Keys, w2)
    ensures w2 == World(w.latest, {})
    ensures Normalized(Normalized(files, w), w2) == Normalized(files, w)
  {
    hide WorldOf, NormalizeValue, VersionText;
    forall d
      ensures d in w2.latest <==> d in w.latest
      ensures d in w.latest ==> w2.latest[d] == w.latest[d]
      ensures d !in w2.several
    {
      SecondWorldAt(files, w, w2, d);
    }
    forall d | d in w.latest
      ensures VersionText(w.latest[d])
    {
      WorldAt(files.Keys, w, d);
    }
    assert w2.latest == w.latest && w2.several == {};
    forall r | r in Normalized(files, w)
      ensures NormalizeValue(w2, Normalized(files, w)[r]) == Normalized(files, w)[r]
    {
      SecondRunUnchanged(w, files[r]);
    }
  }

  // ---------- normalization against the rules ----------

  lemma {:induction false} ContainsIs(s: string, part: string)
    ensures Contains(s, part) <==> Within(s, part)
  {
    if Contains(s, part) {
      if part <= s {
        assert s == "" + part + s[|part|..];
      } else {
        ContainsIs(s[1..], part);
        var a, b :| s[1..] == a + part + b;
        assert s == ([s[0]] + a) + part + b;
      }
    }
    if a, b :| s == a + part + b {
      if a != "" {
        assert s[1..] == a[1..] + part + b;
        ContainsIs(s[1..], part);
      } else {
        assert s[..|part|] == part;
      }
    }
  }

  lemma {:induction false} CategoryInUriIs(uri: string, categories: seq<string>) returns (i: nat)
    ensures i <= |categories| && forall j :: 0 <= j < i ==> !Within(uri, "/" + categories[j] + "/")
    ensures i < |categories| ==> CategoryInUri(uri, categories) == Some(categories[i]) && Within(uri, "/" + categories[i] + "/")
    ensures i == |categories| ==> CategoryInUri(uri, categories) == None
  {
    i := 0;
    if categories != [] {
      ContainsIs(uri, "/" + categories[0] + "/");
      hide Within;
      if !Contains(uri, "/" + categories[0] + "/") {
        i := CategoryInUriIs(uri, categories[1..]);
        assert forall j :: 0 < j < i + 1 ==> categories[j] == categories[1..][j - 1];
        i := i + 1;
      }
    }
  }

  lemma {:induction false} LinkCategoryIs(uri: string, c: string)
    ensures CategoryInUri(uri, CATEGORIES) == Some(c) <==> LinkCategory(uri, c)
  {
    var i := CategoryInUriIs(uri, CATEGORIES);
    hide Within, CategoryInUri;
    if LinkCategory(uri, c) {
      var k :| 0 <= k < |CATEGORIES| && CATEGORIES[k] == c && Within(uri, "/" + c + "/")
               && forall j :: 0 <= j < k ==> !Within(uri, "/" + CATEGORIES[j] + "/");
      assert !(i < k) && !(k < i);
    }
  }

  lemma {:induction false} TypeAt(value: string, i: nat)
    requires i < |TYPE_CATEGORIES| && DatasetIndex.Lower(XmlText.Trim(value)) == TYPE_CATEGORIES[i].0
    ensures CategoryFromType(value) == Some(TYPE_CATEGORIES[i].1)
  {
    hide DatasetIndex.Lower, XmlText.Trim;
    var name := DatasetIndex.Lower(XmlText.Trim(value));
    assert name[0] == TYPE_CATEGORIES[i].0[0] && |name| == |TYPE_CATEGORIES[i].0|;
  }

  lemma {:induction false} TypeFound(value: string) returns (i: nat)
    requires CategoryFromType(value).Some?
    ensures i < |TYPE_CATEGORIES| && DatasetIndex.Lower(XmlText.Trim(value)) == TYPE_CATEGORIES[i].0
  {
    hide DatasetIndex.Lower, XmlText.Trim;
    var name := DatasetIndex.Lower(XmlText.Trim(value));
    i := if name == "contact data set" then 0
         else if name == "flow property data set" then 1
         else if name == "flow data set" then 2
         else if name == "lcia method data set" then 3
         else if name == "life cycle model data set" then 4
         else if name == "lifecycle model data set" then 5
         else if name == "process data set" then 6
         else if name == "source data set" then 7
         else if name == "compliance system" then 8
         else if name == "ilcddataformatreference" then 9
         else if name == "datasetformat" then 10
         else if name == "ilcdformatglobalreference" then 11
         else 12;
  }

  lemma {:induction false} TypeCategoryIs(value: string, c: string)
    ensures CategoryFromType(value) == Some(c) <==> TypeCategory(value, c)
  {
    hide DatasetIndex.Lower, XmlText.Trim, CategoryFromType;
    if CategoryFromType(value) == Some(c) {
      var i := TypeFound(value);
      TypeAt(value, i);
    }
    if i :| 0 <= i < |TYPE_CATEGORIES| && DatasetIndex.Lower(XmlText.Trim(value)) == TYPE_CATEGORIES[i].0 && TYPE_CATEGORIES[i].1 == c {
      TypeAt(value, i);
    }
  }

  lemma {:induction false} IsLinkIs(uri: string, l: Link)
    ensures Versioned(uri) == Some(l) <==> IsLink(uri, l)
  {
    if Versioned(uri) == Some(l) {
      VersionedParts(uri);
    }
    if IsLink(uri, l) {
      VersionedLink(l);
    }
  }

  lemma {:induction false} IsPlainLinkIs(uri: string, uuid: string)
    ensures Unversioned(uri) == Some(uuid) <==> IsPlainLink(uri, uuid)
    ensures IsPlainLink(uri, uuid) ==> Versioned(uri).None?
  {
    hide UuidText, VersionText;
    if Unversioned(uri) == Some(uuid) {
      var suffix := SuffixOf(uri).value;
      var n := |uri| - |suffix|;
      assert uri == uri[..n - 36] + uuid + suffix;
    }
    if IsPlainLink(uri, uuid) {
      var before, suffix :| (suffix == ".xml" || suffix == ".json") && uri == before + uuid + suffix;
      SuffixKeeps(before + uuid, suffix);
      var n := |uri| - |suffix|;
      assert |uuid| == 36 && uri[n - 36..n] == uuid by {
        UuidLength(uuid);
      }
      if n >= 46 {
        NoLineInUuid(uuid);
        assert uri[n - 10] == uuid[26];
      }
    }
  }

  lemma UuidLength(uuid: string)
    requires UuidText(uuid)
    ensures |uuid| == 36
  {
  }

  lemma NoLineInUuid(uuid: string)
    requires UuidText(uuid)
    ensures |uuid| == 36 && uuid[26] != '_'
  {
  }

  /** The target that is computed is the one that the rules give. */
  lemma {:induction false} TargetIs(m: map<string, Value>, t: Target)
    ensures InferTarget(m) == Some(t) <==> PointsTo(m, t)
  {
    var uri := TextOf(m, "@uri");
    CategoryIs(m, t.category);
    IdentifierIs(m, t.uuid);
    VersionIs(m, t.version);
    hide CategoryInUri, CategoryFromType, Versioned, Unversioned, HasCategory, HasUuid, HasVersion;
  }

  lemma {:induction false} CategoryIs(m: map<string, Value>, c: string)
    ensures Category(TextOf(m, "@uri"), Text(m, "@type")) == Some(c) <==> HasCategory(m, c)
  {
    var uri := TextOf(m, "@uri");
    forall d
      ensures CategoryInUri(uri, CATEGORIES) == Some(d) <==> LinkCategory(uri, d)
    {
      LinkCategoryIs(uri, d);
    }
    if HasText(m, "@type") {
      TypeCategoryIs(m["@type"].value, c);
    }
    hide CategoryInUri, CategoryFromType, LinkCategory, TypeCategory;
  }

  lemma {:induction false} IdentifierIs(m: map<string, Value>, uuid: string)
    ensures var uri := TextOf(m, "@uri");
            OrElse(Text(m, "@refObjectId"), if Versioned(uri).Some? then Some(Versioned(uri).value.uuid) else Unversioned(uri)) == Some(uuid)
            <==> HasUuid(m, uuid)
  {
    var uri := TextOf(m, "@uri");
    IsPlainLinkIs(uri, uuid);
    forall l
      ensures Versioned(uri) == Some(l) <==> IsLink(uri, l)
    {
      IsLinkIs(uri, l);
    }
    hide Versioned, Unversioned, IsLink, IsPlainLink;
  }

  lemma {:induction false} VersionIs(m: map<string, Value>, version: Option<string>)
    ensures var link := Versioned(TextOf(m, "@uri"));
            OrElse(Text(m, "@version"), if link.Some? then Some(link.value.version) else None) == version
            <==> HasVersion(m, version)
  {
    var uri := TextOf(m, "@uri");
    forall l
      ensures Versioned(uri) == Some(l) <==> IsLink(uri, l)
    {
      IsLinkIs(uri, l);
    }
    hide Versioned, IsLink;
  }

  lemma {:induction false} RefersIs(x: Value, t: Target)
    ensures RefersTo(x, t) <==> Refers(x) && InferTarget(x.members).value == t
  {
    if x.Obj? {
      TargetIs(x.members, t);
    }
    hide InferTarget, PointsTo;
  }

  lemma {:induction false} RemovedIs(rs: set<Record>, w: World, k: string, x: Value)
    requires WorldOf(rs, w)
    ensures RemovedLink(w, k, x) <==> Superseded(rs, k, x)
  {
    forall t
      ensures RefersTo(x, t) <==> Refers(x) && InferTarget(x.members).value == t
    {
      RefersIs(x, t);
    }
    if Refers(x) {
      WorldAt(rs, w, DatasetOf(x));
    }
    hide WorldOf, RefersTo, Refers, InferTarget;
    if RemovedLink(w, k, x) {
      var d := DatasetOf(x);
      var a, b :| a in rs && b in rs && Of(a) == d && Of(b) == d && a.version != b.version;
      var t := InferTarget(x.members).value;
      assert RefersTo(x, t) && SameDataset(a, t) && SameDataset(b, t);
    }
  }

  lemma {:induction false} GreatestIs(rs: set<Record>, w: World, r: Record)
    requires WorldOf(rs, w)
    ensures IsGreatest(rs, r) <==> r in rs && Of(r) in w.latest && w.latest[Of(r)] == r.version
    ensures Of(r) in w.latest ==> IsGreatest(rs, Record(r.category, r.uuid, w.latest[Of(r)]))
  {
    hide StrLe;
    if r in rs {
      assert Bounds(w, r);
    }
    if Of(r) in w.latest {
      assert LatestIn(rs, w, Of(r));
      forall s | s in rs && s.category == r.category && s.uuid == r.uuid
        ensures StrLe(s.version, w.latest[Of(r)])
      {
        assert Bounds(w, s);
      }
      if IsGreatest(rs, r) {
        StrLeAntisymmetric(r.version, w.latest[Of(r)]);
      }
    }
  }

  /** The reference is outdated exactly when it is behind the greatest record of its dataset. */
  lemma {:induction false} OutdatedIs(rs: set<Record>, w: World, x: Value, r: Record)
    requires WorldOf(rs, w)
    ensures Behind(rs, x, r) <==> Outdated(w, x) && r == Record(DatasetOf(x).0, DatasetOf(x).1, w.latest[DatasetOf(x)])
  {
    forall t
      ensures RefersTo(x, t) <==> Refers(x) && InferTarget(x.members).value == t
    {
      RefersIs(x, t);
    }
    GreatestIs(rs, w, r);
    if Outdated(w, x) {
      GreatestIs(rs, w, Record(DatasetOf(x).0, DatasetOf(x).1, w.latest[DatasetOf(x)]));
    }
    hide WorldOf, RefersTo, Refers, InferTarget, IsGreatest;
  }

  lemma {:induction false} UriMoved(uri: string, r: Record)
    ensures LinkMoved(uri, r, RewriteUri(uri, r.uuid, r.version))
  {
    forall l
      ensures Versioned(uri) == Some(l) <==> IsLink(uri, l)
    {
      IsLinkIs(uri, l);
    }
    hide Versioned, IsLink, LinkText;
  }

  /** Normalizing a document brings it up to the records of the package. */
  lemma {:induction false} NormalizedIsUp(rs: set<Record>, w: World, v: Value)
    requires WorldOf(rs, w)
    ensures BroughtUp(rs, v, NormalizeValue(w, v), None)
    decreases v, 0
  {
    match v
    case Obj(m) =>
      forall k
        ensures MemberBroughtUp(rs, v, NormalizeValue(w, v), None, k)
      {
        RemovedAndNormalized(rs, w, m, k);
        if k in m {
          MemberIsUp(rs, w, m[k]);
        }
        hide NormalizeValue, NormalizeMember, RemovedLink, Superseded, ReferenceBroughtUp, WorldOf;
      }
    case Arr(items) =>
      forall i | 0 <= i < |items|
        ensures BroughtUp(rs, items[i], NormalizeValue(w, items[i]), None)
      {
        NormalizedIsUp(rs, w, items[i]);
      }
    case _ =>
  }

  lemma RemovedAndNormalized(rs: set<Record>, w: World, m: map<string, Value>, k: string)
    requires WorldOf(rs, w)
    ensures var n := NormalizeValue(w, Obj(m));
            && n.Obj? && (k in n.members <==> k in m && !Superseded(rs, k, m[k]))
            && (k in n.members ==> n.members[k] == NormalizeMember(w, m[k]))
  {
    hide NormalizeValue, NormalizeMember, WorldOf, RemovedLink, Superseded;
    NormalizedAt(w, m, k);
    if k in m {
      RemovedIs(rs, w, k, m[k]);
    }
  }

  lemma {:induction false} MemberIsUp(rs: set<Record>, w: World, x: Value)
    requires WorldOf(rs, w)
    ensures ReferenceBroughtUp(rs, x, NormalizeMember(w, x))
    decreases x, 1
  {
    NormalizedIsUp(rs, w, x);
    forall r
      ensures Behind(rs, x, r) <==> Outdated(w, x) && r == Record(DatasetOf(x).0, DatasetOf(x).1, w.latest[DatasetOf(x)])
    {
      OutdatedIs(rs, w, x, r);
    }
    if Outdated(w, x) {
      var r := Record(DatasetOf(x).0, DatasetOf(x).1, w.latest[DatasetOf(x)]);
      hide NormalizeValue, BroughtUp, Behind, InferTarget, WorldOf;
      assert Behind(rs, x, r);
      RefreshedIsUp(rs, w, x, r);
    } else {
      hide NormalizeValue, BroughtUp, Behind, Outdated;
    }
  }

  lemma {:induction false} RefreshedIsUp(rs: set<Record>, w: World, x: Value, r: Record)
    requires WorldOf(rs, w) && Outdated(w, x) && BroughtUp(rs, x, NormalizeValue(w, x), None)
    requires r == Record(DatasetOf(x).0, DatasetOf(x).1, w.latest[DatasetOf(x)])
    ensures BroughtUp(rs, x, NormalizeMember(w, x), Some(r))
  {
    var m := x.members;
    SameKind(w, x);
    var n := NormalizeValue(w, x).members;
    var y := NormalizeMember(w, x);
    forall k
      ensures MemberBroughtUp(rs, x, y, Some(r), k)
    {
      assert MemberBroughtUp(rs, x, NormalizeValue(w, x), None, k);
      RefreshedAt(n, r.uuid, r.version, k);
      RemovedAndNormalized(rs, w, m, k);
      FieldNames();
      if k == "@uri" && k in m {
        RemovedAndNormalized(rs, w, m, "@uri");
        TextStays(w, "@uri", m["@uri"]);
        UriStays(w, m["@uri"]);
        if m["@uri"].Str? {
          UriMoved(m["@uri"].value, r);
        }
      }
      hide NormalizeValue, RemovedLink, Superseded, Behind, BroughtUp, WorldOf, InferTarget, RewriteUri, LinkMoved, UriRefreshed,
        ReferenceBroughtUp, PRECEDING_KEYS;
    }
  }

  // ---------- the run over a package ----------

  datatype Summary = Summary(scanned: nat, datasets: nat, duplicates: nat, kept: nat, removed: nat, rewritten: nat)

  method Greatest(versions: set<string>) returns (best: string)
    requires versions != {}
    ensures best in versions && forall v :: v in versions ==> StrLe(v, best)
  {
    var left := versions;
    best :| best in left;
    StrLeTotal(best, best);
    while left != {}
      invariant left <= versions && best in versions && forall v :: v in versions - left ==> StrLe(v, best)
      decreases |left|
    {
      var v :| v in left;
      left := left - {v};
      StrLeTotal(v, best);
      StrLeTotal(v, v);
      if !StrLe(v, best) {
        forall u | u in versions - left
          ensures StrLe(u, v)
        {
          if u != v {
            StrLeTransitive(u, best, v);
          }
        }
        best := v;
      }
    }
  }

  ghost predicate VersionsAre(versions: map<Dataset, set<string>>, rs: seq<Record>) {
    && (forall d :: d in versions ==> versions[d] != {})
    && (forall d, v :: (d in versions && v in versions[d]) <==> Record(d.0, d.1, v) in rs)
  }

  method CollectVersions(records: seq<Record>) returns (versions: map<Dataset, set<string>>)
    ensures VersionsAre(versions, records)
  {
    versions := map[];
    for i := 0 to |records|
      invariant VersionsAre(versions, records[..i])
    {
      var r := records[i];
      var known := if Of(r) in versions then versions[Of(r)] else {};
      versions := versions[Of(r) := known + {r.version}];
      assert records[..i + 1] == records[..i] + [r];
    }
    assert records[..|records|] == records;
  }

  /** The greatest version of every dataset in `latest`, and whether it has several. */
  ghost predicate Tallied(versions: map<Dataset, set<string>>, w: World) {
    && w.latest.Keys <= versions.Keys && w.several <= w.latest.Keys
    && (forall d :: d in w.latest ==> w.latest[d] in versions[d])
    && (forall d, v :: d in w.latest && v in versions[d] ==> StrLe(v, w.latest[d]))
    && (forall d :: d in w.latest ==> (d in w.several <==> |versions[d]| > 1))
  }

  method BuildWorld(records: seq<Record>) returns (w: World)
    ensures WorldOf((set r | r in records), w)
  {
    hide StrLe, VersionsAre, WorldOf, Tallied;
    var versions := CollectVersions(records);
    NoneEmpty(versions, records);
    w := World(map[], {});
    TallyStart(versions);
    var left := versions.Keys;
    while left != {}
      invariant left <= versions.Keys && w.latest.Keys == versions.Keys - left && Tallied(versions, w)
      decreases |left|
    {
      var d :| d in left;
      left := left - {d};
      var best := Greatest(versions[d]);
      TallyStep(versions, w, d, best);
      w := World(w.latest[d := best], if |versions[d]| > 1 then w.several + {d} else w.several);
    }
    WorldIs(records, versions, w);
  }

  lemma TallyStart(versions: map<Dataset, set<string>>)
    ensures Tallied(versions, World(map[], {}))
  {
  }

  lemma TallyStep(versions: map<Dataset, set<string>>, w: World, d: Dataset, best: string)
    requires Tallied(versions, w) && d in versions && d !in w.latest && best in versions[d]
    requires forall v :: v in versions[d] ==> StrLe(v, best)
    ensures Tallied(versions, World(w.latest[d := best], if |versions[d]| > 1 then w.several + {d} else w.several))
  {
    hide StrLe;
  }

  lemma NoneEmpty(versions: map<Dataset, set<string>>, records: seq<Record>)
    requires VersionsAre(versions, records)
    ensures forall d :: d in versions ==> versions[d] != {}
  {
  }

  lemma {:induction false} TwoMembers(s: set<string>)
    ensures |s| > 1 <==> exists a, b :: a in s && b in s && a != b
  {
    if |s| > 1 {
      var a :| a in s;
      assert |s - {a}| == |s| - 1;
      var b :| b in s - {a};
    }
    if a, b :| a in s && b in s && a != b {
      assert {a, b} <= s;
      assert s == {a, b} + (s - {a, b});
    }
  }

  lemma SeveralAt(records: seq<Record>, versions: map<Dataset, set<string>>, d: Dataset)
    requires VersionsAre(versions, records) && d in versions
    ensures var rs := set r | r in records;
            |versions[d]| > 1 <==> HasSeveral(rs, d)
  {
    var rs := set r | r in records;
    TwoMembers(versions[d]);
    if a, b :| a in versions[d] && b in versions[d] && a != b {
      var ra, rb := Record(d.0, d.1, a), Record(d.0, d.1, b);
      assert ra in rs && rb in rs && Of(ra) == d && Of(rb) == d && ra.version != rb.version;
    }
    if a, b :| a in rs && b in rs && Of(a) == d && Of(b) == d && a.version != b.version {
      assert a == Record(d.0, d.1, a.version) && b == Record(d.0, d.1, b.version);
    }
  }

  lemma RecordAt(records: seq<Record>, versions: map<Dataset, set<string>>, w: World, r: Record)
    requires VersionsAre(versions, records) && Tallied(versions, w) && w.latest.Keys == versions.Keys && r in records
    ensures Of(r) in w.latest && StrLe(r.version, w.latest[Of(r)])
  {
    hide StrLe;
    assert r == Record(Of(r).0, Of(r).1, r.version);
  }

  lemma DatasetAt(records: seq<Record>, versions: map<Dataset, set<string>>, w: World, d: Dataset)
    requires VersionsAre(versions, records) && Tallied(versions, w) && w.latest.Keys == versions.Keys && d in w.latest
    ensures Record(d.0, d.1, w.latest[d]) in records
  {
    hide StrLe;
  }

  lemma {:induction false} WorldIs(records: seq<Record>, versions: map<Dataset, set<string>>, w: World)
    requires VersionsAre(versions, records) && Tallied(versions, w) && w.latest.Keys == versions.Keys
    ensures WorldOf((set r | r in records), w)
  {
    var rs := set r | r in records;
    hide StrLe, Tallied, VersionsAre, HasSeveral;
    forall r | r in rs
      ensures Bounds(w, r)
    {
      RecordAt(records, versions, w, r);
    }
    forall d | d in w.latest
      ensures LatestIn(rs, w, d)
    {
      DatasetAt(records, versions, w, d);
    }
    forall d
      ensures d in w.several <==> HasSeveral(rs, d)
    {
      SeveralExactly(records, versions, w, d);
    }
  }

  lemma SeveralExactly(records: seq<Record>, versions: map<Dataset, set<string>>, w: World, d: Dataset)
    requires VersionsAre(versions, records) && Tallied(versions, w) && w.latest.Keys == versions.Keys
    ensures d in w.several <==> HasSeveral((set r | r in records), d)
  {
    hide StrLe, VersionsAre;
    if d in versions {
      SeveralAt(records, versions, d);
    } else if HasSeveral((set r | r in records), d) {
      var a :| a in records && Of(a) == d;
      RecordAt(records, versions, w, a);
    }
  }

  class Package {
    var files: map<Record, Value>

    constructor (files: map<Record, Value>)
      ensures this.files == files
    {
      this.files := files;
    }

    /** Normalizes the latest version of each dataset where it stands. */
    method RewriteLatest(records: seq<Record>, w: World) returns (kept: nat, rewritten: nat)
      requires Enumerates(records, files.Keys)
      modifies this
      ensures files == RewrittenIn(old(files), LatestOf(records, w), w)
      ensures kept == |LatestOf(records, w)| && rewritten == |ChangedIn(old(files), LatestOf(records, w), w)|
    {
      hide NormalizeValue, LatestOf, RewrittenIn, ChangedIn, IsLatest;
      ghost var before := files;
      kept, rewritten := 0, 0;
      NothingYet(before, records, w);
      for i := 0 to |records|
        invariant kept == |LatestOf(records[..i], w)|
        invariant rewritten == |ChangedIn(before, LatestOf(records[..i], w), w)|
        invariant files == RewrittenIn(before, LatestOf(records[..i], w), w)
      {
        var r := records[i];
        OneMoreRecord(records, i, w);
        if IsLatest(w, r) {
          kept := kept + 1;
          RewriteStep(before, LatestOf(records[..i], w), w, r);
          var payload, changed := NormalizeNode(w, files[r], files[r]);
          if changed {
            files := files[r := payload];
            rewritten := rewritten + 1;
          }
        }
      }
      assert records[..|records|] == records;
    }

    /** Removes every version but the latest. */
    method RemoveOthers(records: seq<Record>, w: World) returns (removed: nat)
      requires Enumerates(records, files.Keys)
      modifies this
      ensures files == map r | r in old(files) && IsLatest(w, r) :: old(files)[r]
      ensures removed + |LatestOf(records, w)| == |records|
    {
      hide LatestOf, IsLatest, OthersOf;
      ghost var before := files;
      removed := 0;
      NothingYet(before, records, w);
      for i := 0 to |records|
        invariant files == before - OthersOf(records[..i], w)
        invariant removed + |LatestOf(records[..i], w)| == i
      {
        var r := records[i];
        OneMoreRecord(records, i, w);
        if !IsLatest(w, r) {
          files := files - {r};
          removed := removed + 1;
        }
      }
      OthersGone(before, records, w);
      assert records[..|records|] == records;
    }

    /**
     * Keeps the greatest version of each dataset, normalized, and removes the others. `records` are the
     * versioned files in the order they were found.
     */
    method NormalizePackageVersions(records: seq<Record>) returns (summary: Summary, w: World)
      requires Enumerates(records, files.Keys)
      modifies this
      ensures WorldOf(old(files).Keys, w) && files == Normalized(old(files), w)
      ensures summary.scanned == |records| && summary.kept + summary.removed == summary.scanned
      ensures PackageBroughtUp(old(files), files)
      ensures summary.datasets == |DatasetsOf(old(files).Keys)| && summary.duplicates == |SeveralOf(old(files).Keys)|
      ensures summary.kept == |files| && summary.rewritten == |Altered(old(files), files)|
    {
      hide WorldOf, NormalizeValue, PackageBroughtUp, DatasetsOf, SeveralOf, Altered;
      ghost var before := files;
      w := BuildWorld(records);
      assert (set r | r in records) == files.Keys;
      var kept, rewritten := RewriteLatest(records, w);
      var removed := RemoveOthers(records, w);
      assert files.Keys == LatestOf(records, w);
      assert ChangedIn(before, LatestOf(records, w), w) == Changed(before, w);
      assert files == Normalized(before, w);
      PackageIsUp(before, w);
      assert |w.latest| == |w.latest.Keys|;
      summary := Summary(|records|, |w.latest|, |w.several|, kept, removed, rewritten);
    }
  }

  ghost function DatasetsOf(rs: set<Record>): set<Dataset> {
    set r | r in rs :: Of(r)
  }

  /** The datasets of which there are records of two versions. */
  ghost function SeveralOf(rs: set<Record>): set<Dataset> {
    set d | d in DatasetsOf(rs) && HasSeveral(rs, d)
  }

  lemma {:induction false} PackageIsUp(files: map<Record, Value>, w: World)
    requires WorldOf(files.Keys, w)
    ensures PackageBroughtUp(files, Normalized(files, w))
    ensures Changed(files, w) == Altered(files, Normalized(files, w))
    ensures w.latest.Keys == DatasetsOf(files.Keys) && w.several == SeveralOf(files.Keys)
  {
    hide NormalizeValue, BroughtUp, WorldOf, IsGreatest;
    forall r
      ensures r in Normalized(files, w) <==> IsGreatest(files.Keys, r)
      ensures r in Normalized(files, w) ==> BroughtUp(files.Keys, files[r], Normalized(files, w)[r], None)
    {
      GreatestIs(files.Keys, w, r);
      if r in files {
        NormalizedIsUp(files.Keys, w, files[r]);
      }
    }
    forall d
      ensures d in w.latest <==> d in DatasetsOf(files.Keys)
      ensures d in w.several <==> d in SeveralOf(files.Keys)
    {
      WorldAt(files.Keys, w, d);
      assert d in w.latest ==> Of(Record(d.0, d.1, w.latest[d])) == d;
    }
  }

  /** The files after those of `done` have been normalized. */
  ghost function RewrittenIn(files: map<Record, Value>, done: set<Record>, w: World): map<Record, Value> {
    map r | r in files :: if r in done then NormalizeValue(w, files[r]) else files[r]
  }

  ghost function ChangedIn(files: map<Record, Value>, done: set<Record>, w: World): set<Record> {
    set r | r in files && r in done && NormalizeValue(w, files[r]) != files[r]
  }

  ghost function OthersOf(records: seq<Record>, w: World): set<Record> {
    set r | r in records && !IsLatest(w, r)
  }

  lemma OthersGone(files: map<Record, Value>, records: seq<Record>, w: World)
    requires Enumerates(records, files.Keys)
    ensures files - OthersOf(records, w) == map r | r in files && IsLatest(w, r) :: files[r]
  {
    hide IsLatest;
  }

  lemma NothingYet(files: map<Record, Value>, records: seq<Record>, w: World)
    ensures LatestOf(records[..0], w) == {} && OthersOf(records[..0], w) == {} && RewrittenIn(files, {}, w) == files && ChangedIn(files, {}, w) == {}
  {
    hide NormalizeValue;
  }

  lemma RewriteStep(files: map<Record, Value>, done: set<Record>, w: World, r: Record)
    requires r in files && r !in done
    ensures RewrittenIn(files, done, w).Keys == files.Keys && RewrittenIn(files, done, w)[r] == files[r]
    ensures RewrittenIn(files, done + {r}, w) == RewrittenIn(files, done, w)[r := NormalizeValue(w, files[r])]
    ensures NormalizeValue(w, files[r]) == files[r] ==>
              RewrittenIn(files, done + {r}, w) == RewrittenIn(files, done, w) &&
              ChangedIn(files, done + {r}, w) == ChangedIn(files, done, w)
    ensures NormalizeValue(w, files[r]) != files[r] ==>
              |ChangedIn(files, done + {r}, w)| == |ChangedIn(files, done, w)| + 1
  {
    hide NormalizeValue;
    if NormalizeValue(w, files[r]) != files[r] {
      assert ChangedIn(files, done + {r}, w) == ChangedIn(files, done, w) + {r};
    } else {
      assert ChangedIn(files, done + {r}, w) == ChangedIn(files, done, w);
    }
  }

  ghost predicate Enumerates(records: seq<Record>, rs: set<Record>) {
    (forall r :: r in records <==> r in rs) && forall i, j :: 0 <= i < j < |records| ==> records[i] != records[j]
  }

  ghost function LatestOf(records: seq<Record>, w: World): set<Record> {
    set r | r in records && IsLatest(w, r)
  }

  lemma OneMoreRecord(records: seq<Record>, i: nat, w: World)
    requires i < |records| && forall j, k :: 0 <= j < k < |records| ==> records[j] != records[k]
    ensures records[i] !in records[..i] && records[..i + 1] == records[..i] + [records[i]]
    ensures LatestOf(records[..i + 1], w) ==
            if IsLatest(w, records[i]) then LatestOf(records[..i], w) + {records[i]} else LatestOf(records[..i], w)
    ensures records[i] !in LatestOf(records[..i], w)
    ensures OthersOf(records[..i + 1], w) ==
            if IsLatest(w, records[i]) then OthersOf(records[..i], w) else OthersOf(records[..i], w) + {records[i]}
  {
    assert records[..i + 1] == records[..i] + [records[i]];
  }

  /** The kept records whose content differs after normalization. */
  ghost function Changed(files: map<Record, Value>, w: World): set<Record> {
    set r | r in files && IsLatest(w, r) && NormalizeValue(w, files[r]) != files[r]
  }
}
