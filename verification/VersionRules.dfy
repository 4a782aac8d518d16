/** What version normalization promises of a package, told by its records and links alone. */
module VersionRules {
  import opened Json
  import opened TextOrder
  import DatasetIndex
  import XmlText

  datatype Record = Record(category: string, uuid: string, version: string)

  /** What a reference points to, and the version it asks for. */
  datatype Target = Target(category: string, uuid: string, version: Option<string>)

  const CATEGORIES: seq<string> := [
    "contacts", "flowproperties", "flows", "lciamethods", "lifecyclemodels", "processes", "sources", "unitgroups"]

  /** The names of dataset types in documents, and the category of each. */
  const TYPE_CATEGORIES: seq<(string, string)> := [
    ("contact data set", "contacts"), ("flow property data set", "flowproperties"), ("flow data set", "flows"),
    ("lcia method data set", "lciamethods"), ("life cycle model data set", "lifecyclemodels"),
    ("lifecycle model data set", "lifecyclemodels"), ("process data set", "processes"), ("source data set", "sources"),
    ("compliance system", "sources"), ("ilcddataformatreference", "sources"), ("datasetformat", "sources"),
    ("ilcdformatglobalreference", "sources"), ("unit group data set", "unitgroups")]

  // ---------- links ----------

  predicate IsDigit(c: char) {
    '0' <= c <= '9'
  }

  predicate IsHexOrDash(c: char) {
    IsDigit(c) || 'a' <= c <= 'f' || 'A' <= c <= 'F' || c == '-'
  }

  /** Two digits, two digits and three digits with dots between. */
  predicate VersionText(s: string) {
    |s| == 9 && s[2] == '.' && s[5] == '.' &&
    IsDigit(s[0]) && IsDigit(s[1]) && IsDigit(s[3]) && IsDigit(s[4]) && IsDigit(s[6]) && IsDigit(s[7]) && IsDigit(s[8])
  }

  predicate UuidText(s: string) {
    |s| == 36 && forall i :: 0 <= i < |s| ==> IsHexOrDash(s[i])
  }

  datatype Link = Link(before: string, uuid: string, version: string, suffix: string)

  function LinkText(l: Link): string {
    l.before + (l.uuid + "_" + l.version + l.suffix)
  }

  /** A link that ends in the name of one version of a dataset. */
  predicate LinkFits(l: Link) {
    UuidText(l.uuid) && VersionText(l.version) && (l.suffix == ".xml" || l.suffix == ".json")
  }

  ghost predicate IsLink(uri: string, l: Link) {
    LinkFits(l) && uri == LinkText(l)
  }

  /** A link that ends in the name of a dataset without a version. */
  ghost predicate IsPlainLink(uri: string, uuid: string) {
    UuidText(uuid) && exists before, suffix :: (suffix == ".xml" || suffix == ".json") && uri == before + uuid + suffix
  }

  ghost predicate Within(uri: string, part: string) {
    exists a, b :: uri == a + part + b
  }

  // ---------- targets ----------

  predicate HasText(m: map<string, Value>, name: string) {
    name in m && m[name].Str?
  }

  function TextOf(m: map<string, Value>, name: string): string {
    if HasText(m, name) then m[name].value else ""
  }

  /** The first category that the link goes through. */
  ghost predicate LinkCategory(uri: string, category: string) {
    exists i :: 0 <= i < |CATEGORIES| && CATEGORIES[i] == category && Within(uri, "/" + category + "/")
                && forall j :: 0 <= j < i ==> !Within(uri, "/" + CATEGORIES[j] + "/")
  }

  ghost predicate TypeCategory(value: string, category: string) {
    exists i :: 0 <= i < |TYPE_CATEGORIES| && DatasetIndex.Lower(XmlText.Trim(value)) == TYPE_CATEGORIES[i].0
                && TYPE_CATEGORIES[i].1 == category
  }

  /** The category of a reference is that of its link, otherwise that of its type. */
  ghost predicate HasCategory(m: map<string, Value>, category: string) {
    LinkCategory(TextOf(m, "@uri"), category) ||
    ((forall c :: !LinkCategory(TextOf(m, "@uri"), c)) && HasText(m, "@type") && TypeCategory(m["@type"].value, category))
  }

  /** Its identifier is its own, otherwise that in its link. */
  ghost predicate HasUuid(m: map<string, Value>, uuid: string) {
    if HasText(m, "@refObjectId") then uuid == m["@refObjectId"].value
    else
      (exists l :: IsLink(TextOf(m, "@uri"), l) && l.uuid == uuid) || IsPlainLink(TextOf(m, "@uri"), uuid)
  }

  /** Its version is its own, otherwise that in its link, if there is one. */
  ghost predicate HasVersion(m: map<string, Value>, version: Option<string>) {
    if HasText(m, "@version") then version == Some(m["@version"].value)
    else if version.Some? then exists l :: IsLink(TextOf(m, "@uri"), l) && l.version == version.value
    else forall l :: !IsLink(TextOf(m, "@uri"), l)
  }

  ghost predicate PointsTo(m: map<string, Value>, t: Target) {
    HasCategory(m, t.category) && HasUuid(m, t.uuid) && HasVersion(m, t.version)
  }

  /** A reference is an object with a member "@refObjectId" that points somewhere. */
  ghost predicate RefersTo(x: Value, t: Target) {
    x.Obj? && "@refObjectId" in x.members && PointsTo(x.members, t)
  }

  // ---------- records ----------

  predicate SameDataset(r: Record, t: Target) {
    r.category == t.category && r.uuid == t.uuid
  }

  /** No record of the dataset has a greater version. */
  ghost predicate IsGreatest(rs: set<Record>, r: Record) {
    r in rs && forall s :: s in rs && s.category == r.category && s.uuid == r.uuid ==> StrLe(s.version, r.version)
  }

  /** A link to the preceding version of a dataset of which the package holds two versions. */
  ghost predicate Superseded(rs: set<Record>, name: string, x: Value) {
    (name == "common:referenceToPrecedingDataSetVersion" || name == "referenceToPrecedingDataSetVersion") &&
    exists t, a, b :: RefersTo(x, t) && a in rs && b in rs && SameDataset(a, t) && SameDataset(b, t) && a.version != b.version
  }

  /** A reference that asks for another version than the greatest record `r` of its dataset. */
  ghost predicate Behind(rs: set<Record>, x: Value, r: Record) {
    IsGreatest(rs, r) && exists t :: RefersTo(x, t) && SameDataset(r, t) && t.version.Some? && t.version.value != r.version
  }

  /** A link to a version of the dataset of `r` becomes the link to `r`; any other link stays. */
  ghost predicate LinkMoved(uri: string, r: Record, moved: string) {
    && (forall l :: IsLink(uri, l) && l.uuid == r.uuid ==> moved == LinkText(l.(version := r.version)))
    && ((forall l :: IsLink(uri, l) ==> l.uuid != r.uuid) ==> moved == uri)
  }

  /** `out` is `v` without superseded links and with the references that were behind brought up to date, at every depth.
      With `to`, the object itself is a reference that is brought up to that record. */
  ghost predicate BroughtUp(rs: set<Record>, v: Value, out: Value, to: Option<Record>)
    decreases v, 1
  {
    match v
    case Obj(m) =>
      out.Obj? &&
      forall k {:trigger MemberBroughtUp(rs, v, out, to, k)} :: MemberBroughtUp(rs, v, out, to, k)
    case Arr(items) =>
      out.Arr? && |out.items| == |items| && forall i :: 0 <= i < |items| ==> BroughtUp(rs, items[i], out.items[i], None)
    case _ => out == v
  }

  /** The member `k`: gone exactly when it is superseded, otherwise brought up itself. */
  ghost predicate MemberBroughtUp(rs: set<Record>, v: Value, out: Value, to: Option<Record>, k: string)
    requires v.Obj? && out.Obj?
    decreases v, 0
  {
    if to.Some? && k == "@version" then k in out.members && out.members[k] == Str(to.value.version)
    else if k !in v.members || Superseded(rs, k, v.members[k]) then k !in out.members
    else
      k in out.members &&
      var x, y := v.members[k], out.members[k];
      if to.Some? && k == "@uri" && x.Str? then y.Str? && LinkMoved(x.value, to.value, y.value)
      else ReferenceBroughtUp(rs, x, y)
  }

  /** A member that is behind a record is brought up to it, any other one as it is. */
  ghost predicate ReferenceBroughtUp(rs: set<Record>, x: Value, y: Value)
    decreases x, 2
  {
    && (forall r :: Behind(rs, x, r) ==> BroughtUp(rs, x, y, Some(r)))
    && ((forall r :: !Behind(rs, x, r)) ==> BroughtUp(rs, x, y, None))
  }

  /** The greatest record of each dataset is left, and every one left is brought up to the records there were. */
  ghost predicate PackageBroughtUp(before: map<Record, Value>, after: map<Record, Value>) {
    && (forall r :: r in after <==> IsGreatest(before.Keys, r))
    && (forall r :: r in after ==> r in before && BroughtUp(before.Keys, before[r], after[r], None))
  }

  function Altered(before: map<Record, Value>, after: map<Record, Value>): set<Record> {
    set r | r in after && r in before && after[r] != before[r]
  }
}
