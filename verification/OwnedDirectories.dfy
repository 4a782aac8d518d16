/** The directories an operation creates and removes again, from spec_import.rs. */
module OwnedDirectories {
  import Sorting
  import opened Json
  import opened FileSystem

  /** A directory is there; or looking for it failed; or making it failed and all owned directories were given up. */
  datatype Provision = Provided | NotSeen | GivenUp

  // ---------- deepest first ----------

  predicate Deeper(a: Place, b: Place) {
    |a| >= |b|
  }

  /** The library sort by descending number of components. */
  function DeepestFirst(ds: seq<Place>): seq<Place> {
    Sorting.Sort(Deeper, ds)
  }

  ghost predicate Deepening(ds: seq<Place>) {
    forall i, j :: 0 <= i < j < |ds| ==> |ds[i]| >= |ds[j]|
  }

  lemma DeepestFirstSorts(ds: seq<Place>)
    ensures Deepening(DeepestFirst(ds))
    ensures forall p :: p in DeepestFirst(ds) <==> p in ds
  {
    assert Sorting.Orders(Deeper);
    Sorting.SortSorts(Deeper, ds);
  }

  // ---------- directories an operation owns ----------

  ghost predicate OnlyDirectories(e: Entries, ds: set<Place>) {
    forall d :: d in ds ==> d != [] && (d in e ==> e[d].Directory?)
  }

  /** After removing the first `i` of `ds`: those that hold something else are still there. */
  ghost predicate SweptUpTo(now: Entries, e: Entries, ds: seq<Place>, all: set<Place>, i: nat)
    requires i <= |ds|
  {
    forall p :: Get(now, p) == if p in ds[..i] && !Occupied(e, all, p) then None else Get(e, p)
  }

  lemma {:induction false} SweepStep(now: Entries, e: Entries, ds: seq<Place>, all: set<Place>, i: nat)
    requires i < |ds| && Deepening(ds) && all == (set d | d in ds)
    requires SweptUpTo(now, e, ds, all, i)
    ensures (exists q :: q in now && ds[i] < q) <==> Occupied(e, all, ds[i])
  {
    var d := ds[i];
    if Occupied(e, all, d) {
      var q :| q in e && q !in all && d < q;
      assert Get(now, q) == Get(e, q);
    }
    if !Occupied(e, all, d) {
      forall q | d < q
        ensures q !in now
      {
        assert Get(now, q) == if q in ds[..i] && !Occupied(e, all, q) then None else Get(e, q);
        if q in e {
          var k :| 0 <= k < |ds| && ds[k] == q;
          assert ds[..i][k] == q;
          assert !Occupied(e, all, q);
        }
      }
    }
  }

  lemma SweptAll(now: Entries, e: Entries, ds: seq<Place>, all: set<Place>)
    requires all == (set d | d in ds)
    requires SweptUpTo(now, e, ds, all, |ds|)
    ensures now == Swept(e, all)
  {
    assert ds[..|ds|] == ds;
    forall p
      ensures Get(now, p) == Get(Swept(e, all), p)
    {
      assert p in ds <==> p in all;
    }
    SameEntries(now, Swept(e, all));
  }

  lemma SameEntries(a: Entries, b: Entries)
    requires forall p :: Get(a, p) == Get(b, p)
    ensures a == b
  {
    forall p
      ensures p in a <==> p in b
      ensures p in a ==> a[p] == b[p]
    {
      assert Get(a, p) == Get(b, p);
    }
  }

  ghost function SuffixSet(missing: seq<Place>, i: nat): set<Place> {
    set k | i <= k < |missing| :: missing[k]
  }

  ghost predicate Climbed(e: Entries, directory: Place, missing: seq<Place>) {
    && |missing| <= |directory|
    && (forall i :: 0 <= i < |missing| ==> missing[i] == directory[..|directory| - i])
    && SuffixSet(missing, 0) == MissingAt(e, directory)
  }

  lemma {:induction false} MakeStep(e: Entries, directory: Place, missing: seq<Place>, owned: set<Place>, i: nat)
    requires Climbed(e, directory, missing) && i < |missing| && OnlyDirectories(e, owned)
    ensures var made := SuffixSet(missing, i + 1);
            && missing[i] != [] && missing[i] !in e && missing[i] !in made
            && SuffixSet(missing, i) == made + {missing[i]}
            && WithDirectories(e, made)[missing[i] := Directory] == WithDirectories(e, made + {missing[i]})
            && missing[i] !in WithDirectories(e, made)
    ensures SuffixSet(missing, i) <= MissingAt(e, directory)
    ensures OnlyDirectories(WithDirectories(e, SuffixSet(missing, i)), owned + SuffixSet(missing, i))
  {
    assert missing[i] in SuffixSet(missing, 0);
    assert forall k :: i < k < |missing| ==> |missing[k]| < |missing[i]|;
  }

  lemma {:induction false} ClimbStart(e: Entries, directory: Place, missing: seq<Place>)
    requires Climbed(e, directory, missing)
    ensures SuffixSet(missing, |missing|) == {} && WithDirectories(e, {}) == e
    ensures SuffixSet(missing, 0) == MissingAt(e, directory)
  {
  }

  /** Climbing from `directory` until something exists passes exactly the missing directories. */
  lemma {:induction false} MissingIs(e: Entries, directory: Place, missing: seq<Place>, current: Place)
    requires WellFormed(e) && current in e && |missing| <= |directory|
    requires current == directory[..|directory| - |missing|]
    requires forall i :: 0 <= i < |missing| ==> missing[i] == directory[..|directory| - i] && missing[i] !in e
    ensures Climbed(e, directory, missing)
  {
    forall k | 0 <= k <= |directory| && directory[..k] !in e
      ensures directory[..k] in (set j | 0 <= j < |missing| :: missing[j])
    {
      if k <= |directory| - |missing| {
        if directory[..k] != current {
          assert directory[..k] < current;
          AboveIsDirectory(e, directory[..k], current);
        }
      } else {
        assert missing[|directory| - k] == directory[..k];
      }
    }
  }

  class CreatedDirectories {
    var created: seq<Place>

    ghost function Dirs(): set<Place>
      reads this
    {
      set d | d in created
    }

    constructor ()
      ensures created == []
    {
      created := [];
    }

    /** The missing part of the way to `directory`, from its end up. */
    static method Climb(disk: Disk, directory: Place) returns (r: Option<seq<Place>>)
      requires disk.Valid()
      modifies disk`refusals
      ensures r.Some? ==> Climbed(disk.entries, directory, r.value)
      ensures disk.refusals == old(disk.refusals) + if r.Some? then 0 else 1
    {
      var missing: seq<Place> := [];
      var current := directory;
      while true
        invariant |missing| <= |directory| && current == directory[..|directory| - |missing|]
        invariant disk.refusals == old(disk.refusals)
        invariant forall i :: 0 <= i < |missing| ==> missing[i] == directory[..|directory| - i] && missing[i] !in disk.entries
        decreases |directory| - |missing|
      {
        var r := disk.Look(current);
        if r.Found? {
          MissingIs(disk.entries, directory, missing, current);
          return Some(missing);
        } else if r.Blocked? {
          return None;
        }
        missing := missing + [current];
        current := Parent(current);
      }
    }

    /**
     * On success everything that was missing on the way to `directory` exists and is owned. A look that
     * fails leaves everything alone; a refused creation at once gives up all the directories owned so far.
     */
    method Create(disk: Disk, directory: Place) returns (r: Provision, ghost made: set<Place>)
      requires disk.Valid() && OnlyDirectories(disk.entries, Dirs())
      modifies this, disk
      ensures disk.Valid()
      ensures made <= MissingAt(old(disk.entries), directory)
      ensures r.Provided? ==> made == MissingAt(old(disk.entries), directory) && Dirs() == old(Dirs()) + made
      ensures r.Provided? ==> disk.entries == WithDirectories(old(disk.entries), made)
      ensures r.NotSeen? ==> made == {} && created == old(created) && disk.entries == old(disk.entries)
      ensures r.GivenUp? ==>
                && created == [] && WellFormed(WithDirectories(old(disk.entries), made))
                && disk.entries == Swept(WithDirectories(old(disk.entries), made), old(Dirs()) + made)
      ensures disk.refusals == old(disk.refusals) + if r.Provided? then 0 else 1
    {
      hide Swept, WithDirectories, Climbed, WellFormed, OnlyDirectories, MissingAt, SuffixSet;
      ghost var e := disk.entries;
      ghost var owned := Dirs();
      made := {};
      var found := Climb(disk, directory);
      if found.None? {
        return NotSeen, {};
      }
      var missing := found.value;
      ClimbStart(e, directory, missing);
      for i := |missing| downto 0
        invariant disk.Valid() && disk.refusals == old(disk.refusals)
        invariant made == SuffixSet(missing, i) && disk.entries == WithDirectories(e, made)
        invariant Dirs() == owned + made && OnlyDirectories(disk.entries, owned + made)
      {
        MakeStep(e, directory, missing, owned, i);
        var creation := disk.CreateDir(missing[i]);
        if creation.Made? {
          ghost var before := Dirs();
          created := created + [missing[i]];
          assert Dirs() == before + {missing[i]};
          made := made + {missing[i]};
        } else if creation.Refused? {
          Remove(disk);
          return GivenUp, made;
        }
      }
      r := Provided;
    }

    /** Afterwards nothing is owned, and of the owned directories exactly those are left that hold something else. */
    method Remove(disk: Disk)
      requires disk.Valid() && OnlyDirectories(disk.entries, Dirs())
      modifies this, disk`entries
      ensures disk.Valid() && created == []
      ensures disk.entries == Swept(old(disk.entries), old(Dirs()))
    {
      ghost var e := disk.entries;
      ghost var all := Dirs();
      DeepestFirstSorts(created);
      var deepest := DeepestFirst(created);
      created := [];
      for i := 0 to |deepest|
        invariant disk.Valid() && created == []
        invariant SweptUpTo(disk.entries, e, deepest, all, i)
      {
        SweepStep(disk.entries, e, deepest, all, i);
        ghost var before := disk.entries;
        disk.RemoveDir(deepest[i]);
        SweepGoesOn(before, disk.entries, e, deepest, all, i);
      }
      SweptAll(disk.entries, e, deepest, all);
    }
  }

  lemma {:induction false} SweepGoesOn(before: Entries, now: Entries, e: Entries, ds: seq<Place>, all: set<Place>, i: nat)
    requires i < |ds| && OnlyDirectories(e, all) && all == (set d | d in ds)
    requires SweptUpTo(before, e, ds, all, i)
    requires (exists q :: q in before && ds[i] < q) <==> Occupied(e, all, ds[i])
    requires now == if ds[i] != [] && ds[i] in before && before[ds[i]].Directory? &&
                       !(exists q :: q in before && ds[i] < q)
                    then before - {ds[i]} else before
    ensures SweptUpTo(now, e, ds, all, i + 1)
  {
    hide Occupied;
    assert ds[..i + 1] == ds[..i] + [ds[i]];
    assert ds[i] in all;
    forall p
      ensures Get(now, p) == if p in ds[..i + 1] && !Occupied(e, all, p) then None else Get(e, p)
    {
      assert Get(before, p) == if p in ds[..i] && !Occupied(e, all, p) then None else Get(e, p);
    }
  }
}
