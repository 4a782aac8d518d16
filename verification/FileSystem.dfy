/**
 * The part of a file system that spec_import.rs works on: plain files with a mode and directories,
 * reached by a list of names below the repository root. Every operation that the operating system
 * may refuse either has its whole effect or none.
 */
module FileSystem {
  import opened Json

  type Place = seq<string>

  datatype Entry = File(bytes: string, mode: nat) | Directory

  type Entries = map<Place, Entry>

  datatype Probe = Found | Missing | Blocked

  datatype Creation = Made | AlreadyExists | Refused

  function Parent(p: Place): Place
    requires p != []
  {
    p[..|p| - 1]
  }

  /** Every entry but the root lies in a directory. */
  ghost predicate WellFormed(e: Entries) {
    && [] in e && e[[]].Directory?
    && forall p :: p in e && p != [] ==> Parent(p) in e && e[Parent(p)].Directory?
  }

  function Get(e: Entries, p: Place): Option<Entry> {
    if p in e then Some(e[p]) else None
  }

  lemma {:induction false} AboveIsDirectory(e: Entries, d: Place, p: Place)
    requires WellFormed(e) && p in e && d < p
    ensures d in e && e[d].Directory?
    decreases |p|
  {
    assert d <= Parent(p);
    if d != Parent(p) {
      AboveIsDirectory(e, d, Parent(p));
    }
  }

  // ---------- removing a set of directories, deepest first and only when empty ----------

  /** Something that is not itself to be removed lies below `d`. */
  ghost predicate Occupied(e: Entries, ds: set<Place>, d: Place) {
    exists q :: q in e && q !in ds && d < q
  }

  /** What is left once the directories `ds` have been removed wherever they hold nothing else. */
  ghost function Swept(e: Entries, ds: set<Place>): Entries {
    map p | p in e && (p in ds ==> Occupied(e, ds, p)) :: e[p]
  }

  ghost function WithDirectories(e: Entries, ds: set<Place>): Entries {
    map p | p in e.Keys + ds :: if p in e then e[p] else Directory
  }

  /** The missing directories on the way to `p`, `p` included. */
  ghost function MissingAt(e: Entries, p: Place): set<Place> {
    set k | 0 <= k <= |p| && p[..k] !in e :: p[..k]
  }

  /** The entries, and how many operations have been refused so far. */
  class Disk {
    var entries: Entries
    var refusals: nat

    ghost predicate Valid()
      reads this`entries
    {
      WellFormed(entries)
    }

    /** Metadata without following links. An ancestor that is a file, like any other error, blocks it. */
    method Look(p: Place) returns (r: Probe)
      modifies this`refusals
      ensures r.Found? ==> p in entries
      ensures r.Missing? ==> p !in entries
      ensures refusals == old(refusals) + if r.Blocked? then 1 else 0
    {
      if * {
        refusals := refusals + 1;
        r := Blocked;
      } else {
        r := if p in entries then Found else Missing;
      }
    }

    /** Reads a file. */
    method ReadFile(p: Place) returns (r: Option<Entry>)
      requires p in entries && entries[p].File?
      modifies this`refusals
      ensures r.Some? ==> r.value == entries[p]
      ensures refusals == old(refusals) + if r.Some? then 0 else 1
    {
      if * {
        refusals := refusals + 1;
        r := None;
      } else {
        r := Some(entries[p]);
      }
    }

    method CreateDir(p: Place) returns (r: Creation)
      requires Valid() && p != []
      modifies this
      ensures Valid()
      ensures r.Made? ==> p !in old(entries) && entries == old(entries)[p := Directory]
      ensures !r.Made? ==> entries == old(entries)
      ensures r.AlreadyExists? ==> p in entries
      ensures refusals == old(refusals) + if r.Refused? then 1 else 0
    {
      if p in entries {
        r := AlreadyExists;
      } else if Parent(p) !in entries || entries[Parent(p)].File? {
        refusals := refusals + 1;
        r := Refused;
      } else if * {
        refusals := refusals + 1;
        r := Refused;
      } else {
        entries := entries[p := Directory];
        r := Made;
      }
    }

    /** Creates `p` and its missing ancestors without saying which. */
    method CreateDirAll(p: Place) returns (ok: bool)
      requires Valid()
      modifies this
      ensures Valid()
      ensures ok ==> p in entries && entries[p].Directory?
      ensures exists ds :: ds <= MissingAt(old(entries), p) && entries == WithDirectories(old(entries), ds)
      ensures refusals == old(refusals) + if ok then 0 else 1
    {
      ghost var e := entries;
      ghost var ds: set<Place> := {};
      assert entries == WithDirectories(e, ds);
      ok := true;
      for k := 0 to |p| + 1
        invariant Valid() && refusals == old(refusals)
        invariant ds <= MissingAt(e, p) && entries == WithDirectories(e, ds)
        invariant k > 0 ==> p[..k - 1] in entries && entries[p[..k - 1]].Directory?
      {
        if p[..k] !in entries {
          assert k > 0;
          assert Parent(p[..k]) == p[..k - 1];
          var r := CreateDir(p[..k]);
          if !r.Made? {
            return false;
          }
          ds := ds + {p[..k]};
        } else if entries[p[..k]].File? {
          refusals := refusals + 1;
          return false;
        }
      }
      assert p[..|p|] == p;
    }

    /** Removes an empty directory and nothing else. */
    method RemoveDir(p: Place)
      requires Valid()
      modifies this`entries
      ensures Valid()
      ensures entries == if p != [] && p in old(entries) && old(entries)[p].Directory? &&
                            !(exists q :: q in old(entries) && p < q)
                         then old(entries) - {p} else old(entries)
    {
      if p != [] && p in entries && entries[p].Directory? && !(exists q | q in entries :: p < q) {
        ghost var e := entries;
        entries := entries - {p};
        forall q | q in entries && q != []
          ensures Parent(q) in entries && entries[Parent(q)].Directory?
        {
          assert Parent(q) < q;
        }
      }
    }

    /** Removes a directory with all it holds. */
    method RemoveTree(p: Place)
      requires Valid() && p != []
      modifies this`entries
      ensures Valid()
      ensures entries == map q | q in old(entries) && !(p <= q) :: old(entries)[q]
    {
      ghost var e := entries;
      entries := map q | q in entries && !(p <= q) :: entries[q];
      forall q | q in entries && q != []
        ensures Parent(q) in entries && entries[Parent(q)].Directory?
      {
        assert p <= Parent(q) ==> p <= q;
      }
    }

    /** Writes a file into an existing directory. A refused write may leave a truncated file behind. */
    method WriteFile(p: Place, bytes: string, mode: nat) returns (ok: bool)
      requires Valid() && p != []
      modifies this
      ensures Valid()
      ensures ok ==> entries == old(entries)[p := File(bytes, mode)]
      ensures forall q :: q != p ==> Get(entries, q) == Get(old(entries), q)
      ensures refusals == old(refusals) + if ok then 0 else 1
    {
      ok := false;
      if Parent(p) in entries && entries[Parent(p)].Directory? && (p in entries ==> entries[p].File?) {
        if * {
          entries := entries[p := File(bytes, mode)];
          ok := true;
        } else if * {
          entries := entries[p := File("", 420)];
        }
      }
      refusals := refusals + if ok then 0 else 1;
    }

    /** Writes a sibling temporary file and renames it over `p`, so a refused replacement changes nothing. */
    method ReplaceBytes(p: Place, bytes: string, mode: nat) returns (ok: bool)
      requires Valid() && p != []
      modifies this
      ensures Valid()
      ensures entries == if ok then old(entries)[p := File(bytes, mode)] else old(entries)
      ensures ok ==> p in old(entries) ==> old(entries)[p].File?
      ensures refusals == old(refusals) + if ok then 0 else 1
    {
      ok := false;
      if Parent(p) in entries && entries[Parent(p)].Directory? && (p in entries ==> entries[p].File?) {
        if * {
          entries := entries[p := File(bytes, mode)];
          ok := true;
        }
      }
      refusals := refusals + if ok then 0 else 1;
    }

    method RemoveFile(p: Place) returns (ok: bool)
      requires Valid()
      modifies this
      ensures Valid()
      ensures ok ==> p in old(entries) && old(entries)[p].File?
      ensures entries == if ok then old(entries) - {p} else old(entries)
      ensures refusals == old(refusals) + if ok then 0 else 1
    {
      ok := false;
      if p in entries && entries[p].File? {
        if * {
          entries := entries - {p};
          ok := true;
        }
      }
      refusals := refusals + if ok then 0 else 1;
    }

    /** Creates the lock file, which must not exist. */
    method CreateNew(p: Place, bytes: string) returns (r: Creation)
      requires Valid() && p != []
      modifies this
      ensures Valid()
      ensures r.Made? ==> p !in old(entries) && entries == old(entries)[p := File(bytes, 420)]
      ensures r.AlreadyExists? ==> p in entries
      ensures !r.Made? ==> entries == old(entries)
      ensures refusals == old(refusals) + if r.Refused? then 1 else 0
    {
      if p in entries {
        r := AlreadyExists;
      } else if Parent(p) !in entries || entries[Parent(p)].File? {
        refusals := refusals + 1;
        r := Refused;
      } else if * {
        refusals := refusals + 1;
        r := Refused;
      } else {
        entries := entries[p := File(bytes, 420)];
        r := Made;
      }
    }

    /** Moves a file over a file or an absent place, never over a directory. */
    method Rename(from: Place, to: Place) returns (ok: bool)
      requires Valid() && to != [] && from != to
      modifies this
      ensures Valid()
      ensures ok ==> from in old(entries) && old(entries)[from].File?
      ensures ok ==> to in old(entries) ==> old(entries)[to].File?
      ensures entries == if ok then (old(entries) - {from})[to := old(entries)[from]] else old(entries)
      ensures refusals == old(refusals) + if ok then 0 else 1
    {
      ok := false;
      if from in entries && entries[from].File? &&
         Parent(to) in entries && entries[Parent(to)].Directory? && (to in entries ==> entries[to].File?) {
        if * {
          entries := (entries - {from})[to := entries[from]];
          ok := true;
        }
      }
      refusals := refusals + if ok then 0 else 1;
    }
  }
}
