/** The index of a release: loading with unique identities and paths, and lookup, from index.rs. */
module DatasetIndex {
  import Sorting
  import opened Json
  import opened Pointer
  import opened TextOrder

  datatype DatasetEntry = DatasetEntry(
    datasetType: string, role: string, uuid: string, version: string, relativePath: string, sha256: string,
    contentHash: string)
  {
    function Key(): string {
      datasetType + ":" + Lower(uuid) + ":" + version
    }
  }

  /** A dataset as the index file lists it. */
  datatype RawEntry = RawEntry(
    datasetType: string, role: string, uuid: string, version: string, path: string, sha256: string, contentHash: string)

  /** An index file: its schema version, how many datasets it announces, and the datasets it lists. */
  datatype RawIndex = RawIndex(schemaVersion: string, datasetCount: nat, datasets: seq<RawEntry>)

  const INDEX_SCHEMA := "tiangong.release.canonical-dataset-index.v1"

  datatype LoadError =
    | SchemaUnsupported(version: string)
    | IndexEmpty
    | CountMismatch
    | InvalidHash(value: string)
    | UnsafePath(path: string)
    | EmptyField(field: string)
    | DuplicateIdentity(key: string)
    | DuplicatePath(path: string)
    | FileMissing(path: string)
    | LinkFound(path: string)
    | HashMismatch(path: string)

  /** What is at a path below the input directory; a file comes with its hash. */
  datatype Stored = Absent | Link | Special | File(sha256: string)

  /** ASCII lower case. */
  function Lower(s: string): string {
    seq(|s|, i requires 0 <= i < |s| => if 'A' <= s[i] <= 'Z' then s[i] + 32 as char else s[i])
  }

  predicate Before(a: DatasetEntry, b: DatasetEntry) {
    StrLe(a.Key(), b.Key()) && a.Key() != b.Key()
  }

  /** In strictly ascending order of keys. */
  ghost predicate Ascending(entries: seq<DatasetEntry>) {
    forall i, j :: 0 <= i < j < |entries| ==> Before(entries[i], entries[j])
  }

  // ---------- lookup ----------

  /** Binary search. */
  method Get(entries: seq<DatasetEntry>, key: string) returns (r: Option<DatasetEntry>)
    requires Ascending(entries)
    ensures r.Some? ==> r.value in entries && r.value.Key() == key
    ensures r.None? ==> forall e :: e in entries ==> e.Key() != key
  {
    var low, high := 0, |entries|;
    while low < high
      invariant 0 <= low <= high <= |entries|
      invariant forall i :: 0 <= i < low ==> entries[i].Key() != key
      invariant forall i :: high <= i < |entries| ==> entries[i].Key() != key
    {
      var middle := (low + high) / 2;
      var found := entries[middle].Key();
      if found == key {
        return Some(entries[middle]);
      } else if StrLe(found, key) {
        NotBefore(entries, middle, key);
        low := middle + 1;
      } else {
        NotAfter(entries, middle, key);
        high := middle;
      }
    }
    r := None;
  }

  lemma NotBefore(entries: seq<DatasetEntry>, middle: nat, key: string)
    requires Ascending(entries) && middle < |entries|
    requires StrLe(entries[middle].Key(), key) && entries[middle].Key() != key
    ensures forall i :: 0 <= i <= middle ==> entries[i].Key() != key
  {
    forall i | 0 <= i < middle
      ensures entries[i].Key() != key
    {
      if entries[i].Key() == key {
        StrLeAntisymmetric(entries[middle].Key(), key);
      }
    }
  }

  lemma NotAfter(entries: seq<DatasetEntry>, middle: nat, key: string)
    requires Ascending(entries) && middle < |entries| && !StrLe(entries[middle].Key(), key)
    ensures forall i :: middle <= i < |entries| ==> entries[i].Key() != key
  {
    StrLeTotal(entries[middle].Key(), entries[middle].Key());
  }

  // ---------- loading ----------

  predicate ByKey(a: DatasetEntry, b: DatasetEntry) {
    StrLe(a.Key(), b.Key())
  }

  lemma ByKeyOrders()
    ensures Sorting.Orders(ByKey)
  {
    hide DatasetEntry.Key;
    forall a, b
      ensures ByKey(a, b) || ByKey(b, a)
    {
      StrLeTotal(a.Key(), b.Key());
    }
    forall a, b, c | ByKey(a, b) && ByKey(b, c)
      ensures ByKey(a, c)
    {
      StrLeTransitive(a.Key(), b.Key(), c.Key());
    }
  }

  ghost predicate DistinctKeys(entries: seq<DatasetEntry>) {
    forall i, j :: 0 <= i < j < |entries| ==> entries[i].Key() != entries[j].Key()
  }

  ghost predicate DistinctPaths(entries: seq<DatasetEntry>) {
    forall i, j :: 0 <= i < j < |entries| ==> entries[i].relativePath != entries[j].relativePath
  }

  /** Sorting entries with distinct keys puts them in strictly ascending order. */
  lemma {:induction false} SortAscending(entries: seq<DatasetEntry>)
    requires DistinctKeys(entries)
    ensures Ascending(Sorting.Sort(ByKey, entries)) && multiset(Sorting.Sort(ByKey, entries)) == multiset(entries)
  {
    var sorted, key := Sorting.Sort(ByKey, entries), (e: DatasetEntry) => e.Key();
    ByKeyOrders();
    Sorting.SortSorts(ByKey, entries);
    Sorting.SortDistinct(ByKey, key, entries);
    hide StrLe, DatasetEntry.Key, Sorting.Sort;
    forall i, j | 0 <= i < j < |sorted|
      ensures Before(sorted[i], sorted[j])
    {
      assert ByKey(sorted[i], sorted[j]) && key(sorted[i]) != key(sorted[j]);
    }
  }

  // ---------- the checks on one entry ----------

  predicate IsHexDigit(c: char) {
    '0' <= c <= '9' || 'a' <= c <= 'f' || 'A' <= c <= 'F'
  }

  predicate ValidHash(s: string) {
    |s| == 64 && forall i :: 0 <= i < |s| ==> IsHexDigit(s[i])
  }

  /** ASCII upper case. */
  function Upper(s: string): string {
    seq(|s|, i requires 0 <= i < |s| => if 'a' <= s[i] <= 'z' then s[i] - 32 as char else s[i])
  }

  /** The part of a name before its first dot. */
  function Stem(name: string): string {
    if name == "" || name[0] == '.' then "" else [name[0]] + Stem(name[1..])
  }

  predicate IsControl(c: char) {
    c < ' ' || '\U{007F}' <= c <= '\U{009F}'
  }

  /** Reserved device names: four of three letters, and COM and LPT with a digit from 1 to 9. */
  predicate IsDevice(stem: string) {
    stem == "CON" || stem == "PRN" || stem == "AUX" || stem == "NUL"
    || (|stem| == 4 && (stem[..3] == "COM" || stem[..3] == "LPT") && '1' <= stem[3] <= '9')
  }

  predicate PortableName(name: string) {
    && name != "" && name != "." && name != ".."
    && name[|name| - 1] != ' ' && name[|name| - 1] != '.'
    && (forall i :: 0 <= i < |name| ==> !IsControl(name[i]) && name[i] !in "<>:\"|?*")
    && !IsDevice(Upper(Stem(name)))
  }

  /** A relative path of portable names only. */
  predicate SafePath(path: string) {
    path != "" && '\\' !in path && forall name :: name in SplitSlash(path) ==> PortableName(name)
  }

  /** The first thing wrong with a listed dataset, in the order the checks are made. */
  function Flaw(e: RawEntry): Option<LoadError> {
    if !ValidHash(e.sha256) then Some(InvalidHash(e.sha256))
    else if !ValidHash(e.contentHash) then Some(InvalidHash(e.contentHash))
    else if !SafePath(e.path) then Some(UnsafePath(e.path))
    else if e.datasetType == "" then Some(EmptyField("datasetType"))
    else if e.role == "" then Some(EmptyField("role"))
    else if e.uuid == "" then Some(EmptyField("uuid"))
    else if e.version == "" then Some(EmptyField("version"))
    else None
  }

  /** The entry that is kept: the identity and the hashes in lower case. */
  function Kept(e: RawEntry): DatasetEntry {
    DatasetEntry(e.datasetType, e.role, Lower(e.uuid), e.version, e.path, Lower(e.sha256), Lower(e.contentHash))
  }

  function KeptAll(raw: seq<RawEntry>): (r: seq<DatasetEntry>)
    ensures |r| == |raw| && forall i :: 0 <= i < |raw| ==> r[i] == Kept(raw[i])
  {
    seq(|raw|, i requires 0 <= i < |raw| => Kept(raw[i]))
  }

  /** What is wrong with the file of an entry. */
  function FileFlaw(stored: string -> Stored, e: DatasetEntry): Option<LoadError> {
    match stored(e.relativePath)
    case Link => Some(LinkFound(e.relativePath))
    case File(hash) => if hash != e.sha256 then Some(HashMismatch(e.relativePath)) else None
    case _ => Some(FileMissing(e.relativePath))
  }

  /** The first `n` datasets have no flaw, and no two of them an identity or a path in common. */
  ghost predicate Passed(raw: seq<RawEntry>, stored: string -> Stored, n: nat)
    requires n <= |raw|
  {
    && (forall i :: 0 <= i < n ==> Flaw(raw[i]).None? && FileFlaw(stored, Kept(raw[i])).None?)
    && DistinctKeys(KeptAll(raw)[..n]) && DistinctPaths(KeptAll(raw)[..n])
  }

  /** Dataset `i` is the first that does not pass, for this reason. */
  ghost predicate Stops(raw: seq<RawEntry>, stored: string -> Stored, i: nat, error: LoadError) {
    && i < |raw| && Passed(raw, stored, i)
    && var e := Kept(raw[i]);
       if Flaw(raw[i]).Some? then Some(error) == Flaw(raw[i])
       else if exists j :: 0 <= j < i && Kept(raw[j]).Key() == e.Key() then error == DuplicateIdentity(e.Key())
       else if exists j :: 0 <= j < i && Kept(raw[j]).relativePath == e.relativePath then error == DuplicatePath(e.relativePath)
       else Some(error) == FileFlaw(stored, e)
  }

  /** There is one such dataset and one reason, and then not all datasets pass. */
  lemma {:induction false} StopsOnce(raw: seq<RawEntry>, stored: string -> Stored, i: nat, error: LoadError)
    requires Stops(raw, stored, i, error)
    ensures !Passed(raw, stored, |raw|)
    ensures forall j: nat, other :: Stops(raw, stored, j, other) ==> j == i && other == error
  {
    hide Flaw, FileFlaw, Kept, DatasetEntry.Key;
    StopsBelow(raw, stored, i, error, |raw|);
    forall j: nat, other | Stops(raw, stored, j, other)
      ensures j == i && other == error
    {
      if j < i {
        StopsBelow(raw, stored, j, other, i);
      } else if i < j {
        StopsBelow(raw, stored, i, error, j);
      }
    }
  }

  lemma {:induction false} StopsBelow(raw: seq<RawEntry>, stored: string -> Stored, i: nat, error: LoadError, n: nat)
    requires Stops(raw, stored, i, error) && i < n <= |raw|
    ensures !Passed(raw, stored, n)
  {
    hide Flaw, FileFlaw, Kept, DatasetEntry.Key;
    var all := KeptAll(raw)[..n];
    assert all[i] == Kept(raw[i]) && forall j :: 0 <= j < i ==> all[j] == Kept(raw[j]);
  }

  /** Loads the listed datasets, whose files are `stored` below the input directory. */
  method Load(index: RawIndex, stored: string -> Stored) returns (r: Result<seq<DatasetEntry>, LoadError>)
    ensures r.Ok? ==>
              Ascending(r.value) && multiset(r.value) == multiset(KeptAll(index.datasets))
    ensures r.Ok? <==>
              && index.schemaVersion == INDEX_SCHEMA && index.datasets != [] && index.datasetCount == |index.datasets|
              && Passed(index.datasets, stored, |index.datasets|)
    ensures r == Err(SchemaUnsupported(index.schemaVersion)) <==> index.schemaVersion != INDEX_SCHEMA
    ensures r == Err(IndexEmpty) <==> index.schemaVersion == INDEX_SCHEMA && index.datasets == []
    ensures r == Err(CountMismatch) <==>
              index.schemaVersion == INDEX_SCHEMA && index.datasets != [] && index.datasetCount != |index.datasets|
    ensures index.schemaVersion == INDEX_SCHEMA && index.datasets != [] && index.datasetCount == |index.datasets| && r.Err? ==>
              exists i: nat :: Stops(index.datasets, stored, i, r.error)
  {
    hide StrLe, Sorting.Sort, Kept, DatasetEntry.Key, Passed, Stops;
    if index.schemaVersion != INDEX_SCHEMA {
      return Err(SchemaUnsupported(index.schemaVersion));
    }
    if index.datasets == [] {
      return Err(IndexEmpty);
    }
    if index.datasetCount != |index.datasets| {
      return Err(CountMismatch);
    }
    var raw := index.datasets;
    var seenKeys: set<string> := {};
    var seenPaths: set<string> := {};
    var entries: seq<DatasetEntry> := [];
    NothingLoaded(raw, stored);
    for i := 0 to |raw|
      invariant entries == KeptAll(raw)[..i] && Passed(raw, stored, i)
      invariant forall k :: k in seenKeys <==> exists j :: 0 <= j < i && Kept(raw[j]).Key() == k
      invariant forall p :: p in seenPaths <==> exists j :: 0 <= j < i && Kept(raw[j]).relativePath == p
    {
      OneLoaded(raw, stored, i);
      if Flaw(raw[i]).Some? {
        return Err(Flaw(raw[i]).value);
      }
      var entry := Kept(raw[i]);
      if entry.Key() in seenKeys {
        return Err(DuplicateIdentity(entry.Key()));
      }
      seenKeys := seenKeys + {entry.Key()};
      if entry.relativePath in seenPaths {
        return Err(DuplicatePath(entry.relativePath));
      }
      seenPaths := seenPaths + {entry.relativePath};
      if FileFlaw(stored, entry).Some? {
        return Err(FileFlaw(stored, entry).value);
      }
      entries := entries + [entry];
    }
    AllLoaded(raw, stored);
    SortAscending(entries);
    r := Ok(Sorting.Sort(ByKey, entries));
  }

  lemma NothingLoaded(raw: seq<RawEntry>, stored: string -> Stored)
    ensures Passed(raw, stored, 0)
  {
  }

  lemma AllLoaded(raw: seq<RawEntry>, stored: string -> Stored)
    requires Passed(raw, stored, |raw|)
    ensures DistinctKeys(KeptAll(raw)) && KeptAll(raw)[..|raw|] == KeptAll(raw)
  {
    assert KeptAll(raw)[..|raw|] == KeptAll(raw);
  }

  /** One turn of the loop: either the next dataset passes too, or the loop stops at it. */
  lemma {:induction false} OneLoaded(raw: seq<RawEntry>, stored: string -> Stored, i: nat)
    requires i < |raw| && Passed(raw, stored, i)
    ensures var e := Kept(raw[i]);
            var sameKey, samePath := exists j :: 0 <= j < i && Kept(raw[j]).Key() == e.Key(),
                                     exists j :: 0 <= j < i && Kept(raw[j]).relativePath == e.relativePath;
            if Flaw(raw[i]).Some? then Stops(raw, stored, i, Flaw(raw[i]).value)
            else if sameKey then Stops(raw, stored, i, DuplicateIdentity(e.Key()))
            else if samePath then Stops(raw, stored, i, DuplicatePath(e.relativePath))
            else if FileFlaw(stored, e).Some? then Stops(raw, stored, i, FileFlaw(stored, e).value)
            else Passed(raw, stored, i + 1) && KeptAll(raw)[..i + 1] == KeptAll(raw)[..i] + [e]
    ensures forall error :: Stops(raw, stored, i, error) ==> !Passed(raw, stored, |raw|)
  {
    hide Flaw, FileFlaw, Kept, DatasetEntry.Key;
    forall error | Stops(raw, stored, i, error)
      ensures !Passed(raw, stored, |raw|)
    {
      StopsBelow(raw, stored, i, error, |raw|);
    }
    var all := KeptAll(raw);
    assert all[..i + 1] == all[..i] + [all[i]];
  }
}
