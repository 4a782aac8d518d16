/** Exact reference closure of a release, from closure.rs. */
module Closure {
  import opened Json
  import opened DatasetIndex
  import Pointer

  datatype Profile = UnitProcess | StandaloneResult | ResultProcess

  datatype ClosureError =
    | RootsMissing
    | Cancelled
    | Missing(key: string)
    | Unreadable(key: string)
    | NotLciResult(key: string)
    | VersionMissing(key: string)

  // ---------- references of one document ----------

  function LastSegment(s: string): string {
    if ':' !in s then s else LastSegment(s[1..])
  }

  predicate IsPrecedingVersionReference(key: string) {
    Lower(LastSegment(key)) == Lower("referenceToPrecedingDataSetVersion")
  }

  function ReferenceDatasetType(value: string): Option<string> {
    match Lower(value)
    case "contact data set" => Some("contact")
    case "flow data set" => Some("flow")
    case "flow property data set" => Some("flowproperty")
    case "unit group data set" => Some("unitgroup")
    case "process data set" => Some("process")
    case "source data set" => Some("source")
    case "lcia method data set" => Some("lciamethod")
    case "life cycle model data set" => Some("lifecyclemodel")
    case _ => None
  }

  datatype Reference = NotOne | Unversioned | To(key: string)

  predicate HasText(members: map<string, Value>, name: string) {
    name in members && members[name].Str?
  }

  /** What an object refers to by itself. A link to a preceding version is not followed. */
  function ReferenceOf(members: map<string, Value>, parent: Option<string>): Reference {
    if parent.Some? && IsPrecedingVersionReference(parent.value) then NotOne
    else if !HasText(members, "@refObjectId") || !HasText(members, "@type") then NotOne
    else
      match ReferenceDatasetType(members["@type"].value)
      case None => NotOne
      case Some(kind) =>
        if HasText(members, "@version") && members["@version"].value != "" then
          To(kind + ":" + Lower(members["@refObjectId"].value) + ":" + members["@version"].value)
        else Unversioned
  }

  function Own(members: map<string, Value>, location: string, parent: Option<string>): set<(string, string)> {
    match ReferenceOf(members, parent)
    case To(key) => {(key, location)}
    case _ => {}
  }

  /** All references of a value with the places where they stand. */
  ghost function References(v: Value, location: string, parent: Option<string>): set<(string, string)> {
    match v
    case Obj(m) => Own(m, location, parent) + set k, r | k in m && r in References(m[k], location + "/" + k, Some(k)) :: r
    case Arr(items) =>
      set i, r | 0 <= i < |items| && r in References(items[i], location + "/" + Pointer.Decimal(i), parent) :: r
    case _ => {}
  }

  ghost predicate AllVersioned(v: Value, parent: Option<string>) {
    match v
    case Obj(m) => !ReferenceOf(m, parent).Unversioned? && forall k :: k in m ==> AllVersioned(m[k], Some(k))
    case Arr(items) => forall i :: 0 <= i < |items| ==> AllVersioned(items[i], parent)
    case _ => true
  }

  /** The references of the members named in `keys`. */
  ghost function OfMembers(m: map<string, Value>, keys: set<string>, location: string): set<(string, string)>
    requires keys <= m.Keys
  {
    set k, r | k in keys && r in References(m[k], location + "/" + k, Some(k)) :: r
  }

  /** The references of the first `n` items. */
  ghost function OfItems(items: seq<Value>, n: nat, location: string, parent: Option<string>): set<(string, string)>
    requires n <= |items|
  {
    set i, r | 0 <= i < n && r in References(items[i], location + "/" + Pointer.Decimal(i), parent) :: r
  }

  lemma {:induction false} MemberStep(m: map<string, Value>, keys: set<string>, key: string, location: string)
    requires keys <= m.Keys && key in m
    ensures OfMembers(m, keys + {key}, location)
            == OfMembers(m, keys, location) + References(m[key], location + "/" + key, Some(key))
  {
    hide References;
  }

  lemma {:induction false} ItemStep(items: seq<Value>, n: nat, location: string, parent: Option<string>)
    requires n < |items|
    ensures OfItems(items, n + 1, location, parent)
            == OfItems(items, n, location, parent) + References(items[n], location + "/" + Pointer.Decimal(n), parent)
  {
    hide References, Pointer.Decimal;
  }

  lemma {:induction false} ReferencesAre(v: Value, location: string, parent: Option<string>)
    ensures v.Obj? ==> References(v, location, parent) ==
                         Own(v.members, location, parent) + OfMembers(v.members, v.members.Keys, location)
    ensures v.Arr? ==> References(v, location, parent) == OfItems(v.items, |v.items|, location, parent)
  {
    hide Own, Pointer.Decimal;
  }

  /** Adds the references of `v` to `output`, or stops at one without a version. */
  method WalkReferences(v: Value, location: string, parent: Option<string>, output: set<(string, string)>)
    returns (r: Option<set<(string, string)>>)
    ensures r.Some? <==> AllVersioned(v, parent)
    ensures r.Some? ==> r.value == output + References(v, location, parent)
    decreases v, 1
  {
    ReferencesAre(v, location, parent);
    hide References, ReferenceOf;
    if v.Obj? {
      match ReferenceOf(v.members, parent) {
        case Unversioned => return None;
        case To(key) => r := WalkMembers(v, location, output + {(key, location)});
        case NotOne => r := WalkMembers(v, location, output);
      }
    } else if v.Arr? {
      r := WalkItems(v, location, parent, output);
    } else {
      NoReferences(v, location, parent);
      r := Some(output);
    }
  }

  lemma NoReferences(v: Value, location: string, parent: Option<string>)
    requires !v.Obj? && !v.Arr?
    ensures References(v, location, parent) == {} && AllVersioned(v, parent)
  {
  }

  method WalkMembers(v: Value, location: string, output: set<(string, string)>) returns (r: Option<set<(string, string)>>)
    requires v.Obj?
    ensures r.Some? <==> forall k :: k in v.members ==> AllVersioned(v.members[k], Some(k))
    ensures r.Some? ==> r.value == output + OfMembers(v.members, v.members.Keys, location)
    decreases v, 0
  {
    hide References, AllVersioned;
    var m := v.members;
    var left := m.Keys;
    var all := output;
    while left != {}
      invariant left <= m.Keys
      invariant forall k :: k in m && k !in left ==> AllVersioned(m[k], Some(k))
      invariant all == output + OfMembers(m, m.Keys - left, location)
      decreases |left|
    {
      var key :| key in left;
      MemberStep(m, m.Keys - left, key, location);
      assert m.Keys - left + {key} == m.Keys - (left - {key});
      var next := WalkReferences(m[key], location + "/" + key, Some(key), all);
      if next.None? {
        return None;
      }
      all := next.value;
      left := left - {key};
    }
    assert m.Keys - {} == m.Keys;
    r := Some(all);
  }

  method WalkItems(v: Value, location: string, parent: Option<string>, output: set<(string, string)>)
    returns (r: Option<set<(string, string)>>)
    requires v.Arr?
    ensures r.Some? <==> forall i :: 0 <= i < |v.items| ==> AllVersioned(v.items[i], parent)
    ensures r.Some? ==> r.value == output + OfItems(v.items, |v.items|, location, parent)
    decreases v, 0
  {
    hide References, AllVersioned, Pointer.Decimal;
    var all := output;
    for i := 0 to |v.items|
      invariant forall j :: 0 <= j < i ==> AllVersioned(v.items[j], parent)
      invariant all == output + OfItems(v.items, i, location, parent)
    {
      ItemStep(v.items, i, location, parent);
      var next := WalkReferences(v.items[i], location + "/" + Pointer.Decimal(i), parent, all);
      if next.None? {
        return None;
      }
      all := next.value;
    }
    r := Some(all);
  }

  // ---------- the closure ----------

  /** A release input: its index, the documents that can be read, and the profile asked for. */
  datatype Input = Input(index: seq<DatasetEntry>, document: DatasetEntry -> Option<Value>, profile: Profile)

  predicate IsRoot(e: DatasetEntry, profile: Profile) {
    match profile
    case UnitProcess => e.role == "unit_process"
    case ResultProcess => e.role == "result_process" && e.datasetType == "process"
    case StandaloneResult => e.role == "lifecycle_model" || e.role == "result_process"
  }

  function At(v: Value, path: seq<string>): Option<Value> {
    if path == [] then Some(v)
    else if v.Obj? && path[0] in v.members then At(v.members[path[0]], path[1..])
    else None
  }

  /** The check on result-only members: each must be an LCI result. */
  predicate LciResult(e: DatasetEntry, v: Value, profile: Profile) {
    profile == ResultProcess && e.role == "result_process" ==>
      At(v, ["processDataSet", "modellingAndValidation", "LCIMethodAndAllocation", "typeOfDataSet"]) == Some(Str("LCI result"))
  }

  /** The roles whose datasets a profile starts from. */
  const ROOT_ROLES: seq<(Profile, string)> := [
    (UnitProcess, "unit_process"), (ResultProcess, "result_process"),
    (StandaloneResult, "lifecycle_model"), (StandaloneResult, "result_process")]

  predicate ServesAsRoot(e: DatasetEntry, profile: Profile) {
    (profile, e.role) in ROOT_ROLES && (profile == ResultProcess ==> e.datasetType == "process")
  }

  lemma RootServes(e: DatasetEntry, profile: Profile)
    ensures IsRoot(e, profile) <==> ServesAsRoot(e, profile)
  {
    assert ROOT_ROLES[0] == (UnitProcess, "unit_process") && ROOT_ROLES[1] == (ResultProcess, "result_process");
    assert ROOT_ROLES[2] == (StandaloneResult, "lifecycle_model") && ROOT_ROLES[3] == (StandaloneResult, "result_process");
  }

  /** The values that the names lead through, from one value to another. */
  ghost predicate LeadsTo(v: Value, names: seq<string>, x: Value) {
    exists values: seq<Value> :: Steps(values, names) && values[0] == v && values[|names|] == x
  }

  ghost predicate Steps(values: seq<Value>, names: seq<string>) {
    |values| == |names| + 1 &&
    forall i :: 0 <= i < |names| ==> values[i].Obj? && names[i] in values[i].members && values[i + 1] == values[i].members[names[i]]
  }

  lemma {:induction false} StepsLead(values: seq<Value>, names: seq<string>)
    requires Steps(values, names)
    ensures At(values[0], names) == Some(values[|names|])
  {
    if names != [] {
      var next, rest := values[1..], names[1..];
      forall i | 0 <= i < |rest|
        ensures next[i].Obj? && rest[i] in next[i].members && next[i + 1] == next[i].members[rest[i]]
      {
        assert next[i] == values[i + 1] && rest[i] == names[i + 1];
      }
      StepsLead(next, rest);
    }
  }

  lemma {:induction false} AtSteps(v: Value, names: seq<string>) returns (values: seq<Value>)
    requires At(v, names).Some?
    ensures Steps(values, names) && values[0] == v && Some(values[|names|]) == At(v, names)
  {
    if names == [] {
      values := [v];
    } else {
      var rest := AtSteps(v.members[names[0]], names[1..]);
      values := [v] + rest;
      forall i | 0 <= i < |names|
        ensures values[i].Obj? && names[i] in values[i].members && values[i + 1] == values[i].members[names[i]]
      {
        assert i > 0 ==> values[i] == rest[i - 1] && names[i] == names[1..][i - 1];
      }
    }
  }

  lemma AtIff(v: Value, names: seq<string>, x: Value)
    ensures At(v, names) == Some(x) <==> LeadsTo(v, names, x)
  {
    if At(v, names) == Some(x) {
      var values := AtSteps(v, names);
    }
    hide At, Steps;
    if values :| Steps(values, names) && |values| == |names| + 1 && values[0] == v && values[|names|] == x {
      StepsLead(values, names);
    }
  }

  const RESULT_PLACE: seq<string> := ["processDataSet", "modellingAndValidation", "LCIMethodAndAllocation", "typeOfDataSet"]

  /** The root of a result-only release is an LCI result. */
  ghost predicate IsResult(e: DatasetEntry, v: Value, profile: Profile) {
    profile == ResultProcess && e.role == "result_process" ==> LeadsTo(v, RESULT_PLACE, Str("LCI result"))
  }

  lemma ResultIff(e: DatasetEntry, v: Value, profile: Profile)
    ensures LciResult(e, v, profile) <==> IsResult(e, v, profile)
  {
    AtIff(v, RESULT_PLACE, Str("LCI result"));
    hide At, LeadsTo;
  }

  ghost predicate Listed(w: Input, key: string) {
    exists e :: e in w.index && e.Key() == key
  }

  ghost predicate RootKey(w: Input, key: string) {
    exists e :: e in w.index && e.Key() == key && ServesAsRoot(e, w.profile)
  }

  /** The references of the document that `key` stands for. */
  ghost function Outgoing(w: Input, key: string): set<(string, string)> {
    if Listed(w, key) then
      var e :| e in w.index && e.Key() == key;
      if w.document(e).Some? then References(w.document(e).value, "$", None) else {}
    else {}
  }

  ghost predicate Edge(w: Input, a: string, b: string) {
    exists location: string :: (b, location) in Outgoing(w, a)
  }

  ghost predicate Path(w: Input, p: seq<string>) {
    p != [] && RootKey(w, p[0]) && forall i :: 0 <= i < |p| - 1 ==> Edge(w, p[i], p[i + 1])
  }

  /** Some chain of references leads from a root of the profile to `key`. */
  ghost predicate Reachable(w: Input, key: string) {
    exists p :: Path(w, p) && p[|p| - 1] == key
  }

  /** A listed member whose document can be read, is of the kind asked for and versions all its references. */
  ghost predicate Sound(w: Input, key: string) {
    exists e :: e in w.index && e.Key() == key && SoundEntry(w, e)
  }

  ghost predicate SoundEntry(w: Input, e: DatasetEntry) {
    w.document(e).Some? && IsResult(e, w.document(e).value, w.profile) && AllVersioned(w.document(e).value, None)
  }

  lemma {:induction false} OneEntry(index: seq<DatasetEntry>, a: DatasetEntry, b: DatasetEntry)
    requires Ascending(index) && a in index && b in index && a.Key() == b.Key()
    ensures a == b
  {
    var i :| 0 <= i < |index| && index[i] == a;
    var j :| 0 <= j < |index| && index[j] == b;
    hide DatasetEntry.Key, Ascending;
    KeysDiffer(index);
  }

  lemma KeysDiffer(index: seq<DatasetEntry>)
    requires Ascending(index)
    ensures DistinctKeys(index)
  {
    forall i, j | 0 <= i < j < |index|
      ensures index[i].Key() != index[j].Key()
    {
      assert Before(index[i], index[j]);
    }
  }

  lemma {:induction false} OutgoingOf(w: Input, e: DatasetEntry)
    requires Ascending(w.index) && e in w.index && w.document(e).Some?
    ensures Outgoing(w, e.Key()) == References(w.document(e).value, "$", None)
  {
    assert Listed(w, e.Key());
    var f :| f in w.index && f.Key() == e.Key() &&
             Outgoing(w, e.Key()) == if w.document(f).Some? then References(w.document(f).value, "$", None) else {};
    OneEntry(w.index, e, f);
  }

  lemma RootReachable(w: Input, key: string)
    requires RootKey(w, key)
    ensures Reachable(w, key)
  {
    assert Path(w, [key]);
  }

  lemma OneFurther(w: Input, a: string, b: string)
    requires Reachable(w, a) && Edge(w, a, b)
    ensures Reachable(w, b)
  {
    hide Edge, RootKey;
    var p :| Path(w, p) && p[|p| - 1] == a;
    var q := p + [b];
    assert q[|q| - 1] == b;
    forall i | 0 <= i < |q| - 1
      ensures Edge(w, q[i], q[i + 1])
    {
      assert i < |p| - 1 ==> Edge(w, p[i], p[i + 1]);
    }
    assert Path(w, q);
  }

  /** A set with all roots that references do not leave holds everything reachable. */
  lemma {:induction false} ClosedHoldsAll(w: Input, keys: set<string>, p: seq<string>)
    requires Path(w, p)
    requires forall k :: RootKey(w, k) ==> k in keys
    requires forall a, b :: a in keys && Edge(w, a, b) ==> b in keys
    ensures p[|p| - 1] in keys
    decreases |p|
  {
    hide RootKey, Edge;
    if |p| > 1 {
      var q := p[..|p| - 1];
      assert Path(w, q);
      ClosedHoldsAll(w, keys, q);
      assert Edge(w, p[|p| - 2], p[|p| - 1]);
    }
  }

  /** The number of references of all members of a set. */
  ghost function ReferenceCount(w: Input, keys: set<string>): nat {
    if keys == {} then 0
    else
      var k :| k in keys;
      |Outgoing(w, k)| + ReferenceCount(w, keys - {k})
  }

  lemma {:induction false} CountWith(w: Input, keys: set<string>, key: string)
    requires key !in keys
    ensures ReferenceCount(w, keys + {key}) == ReferenceCount(w, keys) + |Outgoing(w, key)|
    decreases |keys|
  {
    hide Outgoing;
    var more := keys + {key};
    var k :| k in more && ReferenceCount(w, more) == |Outgoing(w, k)| + ReferenceCount(w, more - {k});
    if k == key {
      assert more - {k} == keys;
    } else {
      assert more - {k} == (keys - {k}) + {key};
      CountWith(w, keys - {k}, key);
      CountWith(w, keys - {k}, k);
      assert keys == (keys - {k}) + {k};
    }
  }

  // ---------- the worklist ----------

  /** What the loop keeps: everything seen is reachable, and nothing selected refers past what is seen. */
  ghost predicate Closing(w: Input, selected: map<string, DatasetEntry>, pending: seq<string>, count: nat) {
    && (forall k :: k in pending ==> Reachable(w, k) && Listed(w, k))
    && (forall k :: k in selected ==>
          Reachable(w, k) && selected[k] in w.index && selected[k].Key() == k && SoundEntry(w, selected[k]))
    && (forall k :: RootKey(w, k) ==> k in selected || k in pending)
    && (forall a, b :: a in selected && Edge(w, a, b) ==> b in selected || b in pending)
    && count == ReferenceCount(w, selected.Keys)
  }

  /** The keys of the roots in index order. */
  function RootKeys(index: seq<DatasetEntry>, profile: Profile): seq<string> {
    if index == [] then []
    else
      var e := index[|index| - 1];
      RootKeys(index[..|index| - 1], profile) + if IsRoot(e, profile) then [e.Key()] else []
  }

  function Reversed(s: seq<string>): seq<string> {
    if s == [] then [] else [s[|s| - 1]] + Reversed(s[..|s| - 1])
  }

  lemma {:induction false} RootKeysAre(w: Input, n: nat, k: string)
    requires n <= |w.index|
    ensures k in RootKeys(w.index[..n], w.profile) <==>
            exists i :: 0 <= i < n && w.index[i].Key() == k && ServesAsRoot(w.index[i], w.profile)
  {
    hide DatasetEntry.Key, IsRoot, ServesAsRoot;
    if n > 0 {
      RootServes(w.index[n - 1], w.profile);
      RootKeysAre(w, n - 1, k);
      assert w.index[..n][..n - 1] == w.index[..n - 1];
    }
  }

  lemma {:induction false} ReversedHolds(s: seq<string>, k: string)
    ensures k in Reversed(s) <==> k in s
  {
    if s != [] {
      ReversedHolds(s[..|s| - 1], k);
      assert s == s[..|s| - 1] + [s[|s| - 1]];
    }
  }

  lemma {:induction false} RootsPending(w: Input, k: string)
    ensures k in Reversed(RootKeys(w.index, w.profile)) <==> RootKey(w, k)
    ensures k in RootKeys(w.index, w.profile) <==> RootKey(w, k)
    ensures RootKey(w, k) ==> Reachable(w, k) && Listed(w, k)
  {
    hide DatasetEntry.Key, IsRoot, ServesAsRoot, Reachable;
    assert w.index[..|w.index|] == w.index;
    ReversedHolds(RootKeys(w.index, w.profile), k);
    RootKeysAre(w, |w.index|, k);
    if RootKey(w, k) {
      RootReachable(w, k);
    }
  }

  lemma {:induction false} StartsClosing(w: Input)
    ensures Closing(w, map[], Reversed(RootKeys(w.index, w.profile)), 0)
    ensures RootKeys(w.index, w.profile) == [] <==> forall k :: !RootKey(w, k)
  {
    hide Reachable, Listed, RootKey, RootKeys, Reversed, Edge;
    forall k
      ensures k in Reversed(RootKeys(w.index, w.profile)) <==> RootKey(w, k)
      ensures k in RootKeys(w.index, w.profile) <==> RootKey(w, k)
      ensures RootKey(w, k) ==> Reachable(w, k) && Listed(w, k)
    {
      RootsPending(w, k);
    }
    var roots := RootKeys(w.index, w.profile);
    assert roots != [] ==> roots[0] in roots;
  }

  // ---------- one member ----------

  /** Looks up, reads and checks one member and collects its references. */
  method Visit(w: Input, key: string) returns (r: Result<(DatasetEntry, set<(string, string)>), ClosureError>)
    requires Ascending(w.index) && Reachable(w, key) && Listed(w, key)
    ensures r.Ok? ==> r.value.0 in w.index && r.value.0.Key() == key && SoundEntry(w, r.value.0)
    ensures r.Ok? ==> r.value.1 == Outgoing(w, key)
    ensures r.Err? ==> (r.error.Unreadable? || r.error.NotLciResult? || r.error.VersionMissing?) && r.error.key == key
    ensures r.Err? ==> FaultOf(w, r.error) && Unsound(w, key)
  {
    hide Reachable, References, LciResult, IsResult, AllVersioned, Outgoing, DatasetEntry.Key;
    var entry := Get(w.index, key);
    assert entry.Some?;
    var document := w.document(entry.value);
    UnsoundWhen(w, entry.value);
    if document.None? {
      return Err(Unreadable(key));
    }
    ResultIff(entry.value, document.value, w.profile);
    if !LciResult(entry.value, document.value, w.profile) {
      return Err(NotLciResult(key));
    }
    var references := WalkReferences(document.value, "$", None, {});
    if references.None? {
      return Err(VersionMissing(key));
    }
    OutgoingOf(w, entry.value);
    r := Ok((entry.value, references.value));
  }

  /** What the error says of the member that it names is so. */
  ghost predicate FaultOf(w: Input, error: ClosureError)
    requires error.Unreadable? || error.NotLciResult? || error.VersionMissing?
  {
    exists e :: e in w.index && e.Key() == error.key &&
      match error
      case Unreadable(_) => w.document(e).None?
      case NotLciResult(_) => w.document(e).Some? && !IsResult(e, w.document(e).value, w.profile)
      case _ => w.document(e).Some? && !AllVersioned(w.document(e).value, None)
  }

  /** A listed member that cannot be taken into a release. */
  ghost predicate Unsound(w: Input, key: string) {
    Listed(w, key) && !Sound(w, key)
  }

  lemma UnsoundWhen(w: Input, e: DatasetEntry)
    requires Ascending(w.index) && e in w.index
    ensures !SoundEntry(w, e) ==> Unsound(w, e.Key())
  {
    if !SoundEntry(w, e) && Sound(w, e.Key()) {
      var f :| f in w.index && f.Key() == e.Key() && SoundEntry(w, f);
      OneEntry(w.index, e, f);
    }
  }

  /** Puts the keys referred to on the worklist, unless one is not in the index. */
  method Push(w: Input, selected: map<string, DatasetEntry>, references: set<(string, string)>, pending: seq<string>)
    returns (r: Result<seq<string>, ClosureError>)
    requires Ascending(w.index)
    ensures r.Ok? ==> (forall x :: x in references ==> Listed(w, x.0))
    ensures r.Ok? ==> forall k :: k in r.value <==>
                        k in pending || (k !in selected && exists x :: x in references && x.0 == k)
    ensures r.Err? ==> r.error.Missing? && !Listed(w, r.error.key) && exists x :: x in references && x.0 == r.error.key
  {
    hide DatasetEntry.Key;
    var left := references;
    var all := pending;
    while left != {}
      invariant left <= references
      invariant forall x :: x in references - left ==> Listed(w, x.0)
      invariant forall k :: k in all <==>
                  k in pending || (k !in selected && exists x :: x in references - left && x.0 == k)
      decreases |left|
    {
      var x :| x in left;
      var entry := Get(w.index, x.0);
      if entry.None? {
        return Err(Missing(x.0));
      }
      if x.0 !in selected {
        all := all + [x.0];
      }
      assert references - (left - {x}) == references - left + {x};
      left := left - {x};
    }
    assert references - {} == references;
    r := Ok(all);
  }

  lemma {:induction false} VisitKeeps(w: Input, selected: map<string, DatasetEntry>, pending: seq<string>, count: nat,
                                      key: string, entry: DatasetEntry, now: seq<string>)
    requires Closing(w, selected, pending + [key], count) && key !in selected
    requires entry in w.index && entry.Key() == key && SoundEntry(w, entry)
    requires forall x :: x in Outgoing(w, key) ==> Listed(w, x.0)
    requires forall k :: k in now <==> k in pending || (k !in selected && exists x :: x in Outgoing(w, key) && x.0 == k)
    ensures Closing(w, selected[key := entry], now, count + |Outgoing(w, key)|)
  {
    hide Outgoing, RootKey, Reachable, Listed, SoundEntry, DatasetEntry.Key;
    assert Reachable(w, key) by {
      assert key in pending + [key];
    }
    assert forall k :: k in pending + [key] <==> k in pending || k == key;
    forall k | k in now
      ensures Reachable(w, k) && Listed(w, k)
    {
      if k !in pending {
        var x :| x in Outgoing(w, key) && x.0 == k;
        assert (k, x.1) in Outgoing(w, key);
        OneFurther(w, key, k);
      } else {
        assert k in pending + [key];
      }
    }
    forall a, b | a in selected[key := entry] && Edge(w, a, b)
      ensures b in selected[key := entry] || b in now
    {
      if a == key {
        var location: string :| (b, location) in Outgoing(w, key);
      } else {
        assert a in selected;
      }
    }
    assert selected[key := entry].Keys == selected.Keys + {key};
    CountWith(w, selected.Keys, key);
  }

  lemma {:induction false} DoneClosing(w: Input, selected: map<string, DatasetEntry>, count: nat, k: string)
    requires Closing(w, selected, [], count)
    ensures k in selected <==> Reachable(w, k)
  {
    if Reachable(w, k) {
      var p :| Path(w, p) && p[|p| - 1] == k;
      hide RootKey, Edge, Reachable, Listed, SoundEntry;
      ClosedHoldsAll(w, selected.Keys, p);
    }
  }

  /**
   * Exact closure: on success the selected members are those reachable from the profile's roots and no
   * others, and each member's references are counted once. Every failure has its reason; `cancelAt` is the
   * check at which a cancellation is seen, if there is one.
   */
  method Resolve(w: Input, cancelAt: Option<nat>) returns (r: Result<(map<string, DatasetEntry>, nat), ClosureError>)
    requires Ascending(w.index)
    ensures r.Ok? ==>
              && (forall k :: k in r.value.0 <==> Reachable(w, k))
              && (forall k :: k in r.value.0 ==> r.value.0[k] in w.index && r.value.0[k].Key() == k)
              && (forall k :: Reachable(w, k) ==> Sound(w, k))
              && r.value.1 == ReferenceCount(w, r.value.0.Keys)
    ensures r == Err(RootsMissing) <==> forall k :: !RootKey(w, k)
    ensures r == Err(Cancelled) ==> cancelAt.Some?
    ensures r.Err? && r.error.Missing? ==> Reachable(w, r.error.key) && !Listed(w, r.error.key)
    ensures r.Err? && (r.error.Unreadable? || r.error.NotLciResult? || r.error.VersionMissing?) ==>
              Reachable(w, r.error.key) && Unsound(w, r.error.key) && FaultOf(w, r.error)
  {
    hide FaultOf, Reachable, RootKey, Edge, Listed, SoundEntry, Outgoing, DatasetEntry.Key, ReferenceCount, RootKeys, Reversed,
      Ascending, Unsound;
    StartsClosing(w);
    var roots := RootKeys(w.index, w.profile);
    if roots == [] {
      return Err(RootsMissing);
    }
    var pending := Reversed(roots);
    var selected: map<string, DatasetEntry> := map[];
    var count: nat := 0;
    var checks := 0;
    while pending != []
      invariant Closing(w, selected, pending, count)
      decreases (set e | e in w.index :: e.Key()) - selected.Keys, |pending|
    {
      if cancelAt == Some(checks) {
        return Err(Cancelled);
      }
      checks := checks + 1;
      var key := pending[|pending| - 1];
      var rest := pending[..|pending| - 1];
      assert pending == rest + [key];
      if key in selected {
        SkipKeeps(w, selected, rest, count, key);
        pending := rest;
      } else {
        assert key in pending;
        var visited := Visit(w, key);
        if visited.Err? {
          return Err(visited.error);
        }
        var pushed := Push(w, selected, visited.value.1, rest);
        if pushed.Err? {
          var x :| x in visited.value.1 && x.0 == pushed.error.key;
          ReferredReachable(w, key, x);
          return Err(pushed.error);
        }
        VisitKeeps(w, selected, rest, count, key, visited.value.0, pushed.value);
        count := count + |visited.value.1|;
        pending := pushed.value;
        selected := selected[key := visited.value.0];
      }
    }
    forall k
      ensures k in selected <==> Reachable(w, k)
    {
      DoneClosing(w, selected, count, k);
    }
    r := Ok((selected, count));
  }

  lemma SkipKeeps(w: Input, selected: map<string, DatasetEntry>, rest: seq<string>, count: nat, key: string)
    requires Closing(w, selected, rest + [key], count) && key in selected
    ensures Closing(w, selected, rest, count)
  {
    hide Reachable, RootKey, Edge, Listed, SoundEntry, DatasetEntry.Key, ReferenceCount;
    assert forall k :: k in rest + [key] <==> k in rest || k == key;
  }

  lemma ReferredReachable(w: Input, key: string, x: (string, string))
    requires Reachable(w, key) && x in Outgoing(w, key)
    ensures Reachable(w, x.0)
  {
    hide Reachable, Outgoing;
    assert (x.0, x.1) in Outgoing(w, key);
    OneFurther(w, key, x.0);
  }

  /**
   * When every reachable document can be read, is of the right kind and versions all its references, the
   * closure fails for want of a member exactly when some reachable document names a key outside the index.
   */
  method ResolveComplete(w: Input, cancelAt: Option<nat>) returns (r: Result<(map<string, DatasetEntry>, nat), ClosureError>)
    requires Ascending(w.index) && exists k :: RootKey(w, k)
    requires forall k :: Reachable(w, k) ==> !Unsound(w, k)
    ensures r.Ok? || r.error.Missing? || r.error.Cancelled?
    ensures r == Err(Cancelled) ==> cancelAt.Some?
    ensures r != Err(Cancelled) ==> ((r.Err? && r.error.Missing?) <==> exists k :: Reachable(w, k) && !Listed(w, k))
  {
    r := Resolve(w, cancelAt);
    if r.Ok? {
      forall k | Reachable(w, k)
        ensures Listed(w, k)
      {
        hide Reachable;
        assert Sound(w, k);
      }
    }
  }
}
