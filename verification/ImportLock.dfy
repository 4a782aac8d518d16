/** The import lock of spec_import.rs and a whole import under it. */
module ImportLock {
  import opened Json
  import opened FileSystem
  import opened OwnedDirectories
  import opened SpecImport

  const SPEC_IMPORT_LOCK: Place := ["assets", "spec", ".import.lock"]
  const SPEC_STAGING_DIR: Place := ["assets", "spec", ".staging"]
  const LOCK_PARENT: Place := ["assets", "spec"]

  datatype Claim = Held | Contended | Broken

  class Lock {
    var held: bool
    const created: CreatedDirectories

    constructor ()
      ensures !held && fresh(created) && created.created == []
    {
      held := false;
      created := new CreatedDirectories();
    }

    /** Takes the lock by creating its file, which must not exist; a failed attempt leaves nothing behind. */
    method Acquire(disk: Disk, holder: string) returns (claim: Claim)
      requires disk.Valid() && !held && created.created == []
      modifies this, created, disk
      ensures disk.Valid() && held == claim.Held?
      ensures claim.Held? ==>
                && SPEC_IMPORT_LOCK !in old(disk.entries)
                && created.Dirs() == MissingAt(old(disk.entries), LOCK_PARENT)
                && disk.entries == Locked(old(disk.entries), holder)
      ensures !claim.Held? ==> disk.entries == old(disk.entries)
      ensures claim.Contended? ==> SPEC_IMPORT_LOCK in disk.entries
      ensures disk.refusals == old(disk.refusals) + if claim.Broken? then 1 else 0
    {
      hide Swept, WithDirectories, MissingAt, OnlyDirectories, WellFormed;
      ghost var e := disk.entries;
      OwnsNothing(e);
      assert created.Dirs() == {};
      var provision, made := created.Create(disk, LOCK_PARENT);
      assert {} + made == made;
      if !provision.Provided? {
        EarlyMade(e, LOCK_PARENT, made);
        return Broken;
      }
      OwnsMissing(e, LOCK_PARENT);
      var creation := disk.CreateNew(SPEC_IMPORT_LOCK, holder);
      if !creation.Made? {
        created.Remove(disk);
        EarlyMade(e, LOCK_PARENT, made);
        return if creation.AlreadyExists? then Contended else Broken;
      }
      held := true;
      claim := Held;
    }

    /** Gives the lock back: removes its file, then the directories made for it that are empty. */
    method Drop(disk: Disk) returns (released: bool)
      requires disk.Valid() && held && OnlyDirectories(disk.entries, created.Dirs())
      modifies created, disk
      ensures disk.Valid()
      ensures released ==> disk.entries == Swept(old(disk.entries) - {SPEC_IMPORT_LOCK}, old(created.Dirs()))
      ensures disk.refusals == old(disk.refusals) + if released then 0 else 1
    {
      released := disk.RemoveFile(SPEC_IMPORT_LOCK);
      created.Remove(disk);
    }
  }

  lemma OwnsMissing(e: Entries, p: Place)
    requires WellFormed(e)
    ensures OnlyDirectories(WithDirectories(e, MissingAt(e, p)), MissingAt(e, p))
    ensures forall q :: !(q <= p) ==> (q in WithDirectories(e, MissingAt(e, p)) <==> q in e)
  {
  }

  /** The file system while the lock is held and nothing else was done. */
  ghost function Locked(e: Entries, holder: string): Entries {
    WithDirectories(e, MissingAt(e, LOCK_PARENT))[SPEC_IMPORT_LOCK := File(holder, 420)]
  }

  /** No destination is the lock or lies below it or in the staging area. */
  ghost predicate Importable(files: seq<StagedFile>) {
    && Publishable(files, SPEC_STAGING_DIR)
    && forall f :: f in files ==> !(SPEC_IMPORT_LOCK <= f.destination)
  }

  datatype Report = NotRun(claim: Claim) | Ran(outcome: Outcome)

  /**
   * A whole import. Without the lock nothing changes; with it, the report says what stands afterwards,
   * measured against the file system as it was before the lock was taken.
   */
  method ImportPublicSpec(disk: Disk, holder: string, name: string, files: seq<StagedFile>)
    returns (r: Report, released: bool, ghost over: Entries)
    requires disk.Valid() && Importable(files)
    modifies disk
    ensures disk.Valid()
    ensures SPEC_IMPORT_LOCK in old(disk.entries) ==> r.NotRun?
    ensures r.NotRun? ==> disk.entries == old(disk.entries)
    ensures r.NotRun? ==>
              if r.claim.Contended? then SPEC_IMPORT_LOCK in old(disk.entries) && disk.refusals == old(disk.refusals)
              else r.claim.Broken? && disk.refusals == old(disk.refusals) + 1
    ensures r.Ran? && released ==>
              Ends(disk.entries, r.outcome, files, old(disk.entries), over, SPEC_STAGING_DIR + [name])
    ensures r.Ran? ==> Refusals(r.outcome, disk.refusals - old(disk.refusals) - (if released then 0 else 1), files,
                                Locked(old(disk.entries), holder), SPEC_STAGING_DIR, name)
  {
    hide Swept, Ends, MissingAt, OnlyDirectories, WellFormed, Locked, Importable;
    over := map[];
    ghost var prior := disk.entries;
    var lock := new Lock();
    var claim := lock.Acquire(disk, holder);
    if !claim.Held? {
      return NotRun(claim), false, map[];
    }
    ghost var e := disk.entries;
    ImportableIs(files);
    var outcome: Outcome;
    outcome, over := Publish(disk, SPEC_STAGING_DIR, name, files);
    StillOwned(prior, holder, disk.entries, outcome, files, over, SPEC_STAGING_DIR + [name]);
    UnderLock(prior, holder, disk.entries, outcome, files, over, name);
    released := lock.Drop(disk);
    r := Ran(outcome);
  }

  lemma ImportableIs(files: seq<StagedFile>)
    requires Importable(files)
    ensures Publishable(files, SPEC_STAGING_DIR)
  {
  }

  /** Nothing replaced a directory made for the lock. */
  lemma {:induction false} StillOwned(prior: Entries, holder: string, e: Entries, outcome: Outcome, files: seq<StagedFile>,
                                      over: Entries, staging: Place)
    requires WellFormed(prior) && WellFormed(e) && Importable(files) && SPEC_IMPORT_LOCK !in prior
    requires Ends(e, outcome, files, Locked(prior, holder), over, staging)
    ensures OnlyDirectories(e, MissingAt(prior, LOCK_PARENT))
    ensures SPEC_IMPORT_LOCK in e && SPEC_IMPORT_LOCK !in over
    ensures forall d :: d in MissingAt(prior, LOCK_PARENT) ==> d !in over
  {
    PublishedAt(files, |files|);
    assert files[..|files|] == files;
    assert SPEC_IMPORT_LOCK !in over;
    assert SPEC_IMPORT_LOCK in Locked(prior, holder);
    assert SPEC_IMPORT_LOCK in e;
    forall d | d in MissingAt(prior, LOCK_PARENT)
      ensures d != [] && (d in e ==> e[d].Directory?) && d !in over
    {
      assert d < SPEC_IMPORT_LOCK by {
        assert LOCK_PARENT == SPEC_IMPORT_LOCK[..2];
      }
      AboveIsDirectory(e, d, SPEC_IMPORT_LOCK);
    }
  }

  lemma {:induction false} StagingApart(name: string)
    ensures !(SPEC_IMPORT_LOCK <= SPEC_STAGING_DIR + [name])
  {
    var staging := SPEC_STAGING_DIR + [name];
    assert staging[2] == ".staging" && SPEC_IMPORT_LOCK[2] == ".import.lock";
    assert ".staging"[1] != ".import.lock"[1];
  }

  lemma {:induction false} DestinationsApart(files: seq<StagedFile>, k: nat, p: Place)
    requires Importable(files) && k <= |files| && p in Published(files, k)
    ensures !(SPEC_IMPORT_LOCK <= p)
  {
    PublishedAt(files, k);
    assert p in Destinations(files[..k]);
  }

  lemma {:induction false} StandingApart(outcome: Outcome, files: seq<StagedFile>, over: Entries, name: string)
    requires Importable(files) && PartOf(over, Published(files, |files|))
    requires !outcome.Success? && outcome.cause.NoParent? ==> outcome.cause.index <= |files|
    ensures var staging := SPEC_STAGING_DIR + [name];
            var ps := Standing(outcome, files, over, staging);
            (staging in ps || ps == over.Keys) && forall q :: q in ps ==> !(SPEC_IMPORT_LOCK <= q)
  {
    var staging := SPEC_STAGING_DIR + [name];
    StagingApart(name);
    forall q | q in Standing(outcome, files, over, staging) && q != staging
      ensures !(SPEC_IMPORT_LOCK <= q)
    {
      hide Published, Publishable;
      if q in over {
        DestinationsApart(files, |files|, q);
      } else if !outcome.Success? {
        DestinationsApart(files, outcome.cause.index, q);
      }
    }
    hide Published, PartOf, Importable;
  }

  lemma NeededApart(prior: Entries, holder: string, ps: set<Place>, p: Place)
    requires p !in MissingAt(prior, LOCK_PARENT) && p != SPEC_IMPORT_LOCK
    ensures Get(Locked(prior, holder), p) == Get(prior, p)
    ensures p in Needed(Locked(prior, holder), ps) <==> p in Needed(prior, ps)
  {
    assert p in Locked(prior, holder) <==> p in prior;
  }

  /** A directory made for the lock stays exactly when something that stays needs it. */
  lemma {:induction false} LockDirectory(prior: Entries, holder: string, e: Entries, over: Entries, name: string,
                                         ps: set<Place>, d: Place)
    requires WellFormed(prior) && WellFormed(e) && SPEC_IMPORT_LOCK !in prior && d in MissingAt(prior, LOCK_PARENT)
    requires e == After(Locked(prior, holder), over, Needed(Locked(prior, holder), ps))
    requires over.Keys <= ps && (SPEC_STAGING_DIR + [name] in ps || ps == over.Keys)
    requires SPEC_IMPORT_LOCK !in over && forall c :: c in MissingAt(prior, LOCK_PARENT) ==> c !in over
    ensures Occupied(e - {SPEC_IMPORT_LOCK}, MissingAt(prior, LOCK_PARENT), d) <==> d in Needed(prior, ps)
  {
    var lockdirs := MissingAt(prior, LOCK_PARENT);
    if Occupied(e - {SPEC_IMPORT_LOCK}, lockdirs, d) {
      var q :| q in e - {SPEC_IMPORT_LOCK} && q !in lockdirs && d < q;
      WhatStandsNeeds(prior, holder, e, over, ps, d, q);
    }
    if d in Needed(prior, ps) {
      hide MissingAt;
      if SPEC_STAGING_DIR + [name] in ps {
        ScratchStands(prior, holder, e, over, name, ps, d);
      } else {
        hide Locked;
        var s, k :| s in ps && 0 <= k < |s| && s[..k] !in prior && s[..k] == d;
        assert s in e - {SPEC_IMPORT_LOCK};
      }
    }
  }

  lemma {:induction false} WhatStandsNeeds(prior: Entries, holder: string, e: Entries, over: Entries,
                                           ps: set<Place>, d: Place, q: Place)
    requires WellFormed(prior) && d in MissingAt(prior, LOCK_PARENT) && d < q
    requires e == After(Locked(prior, holder), over, Needed(Locked(prior, holder), ps)) && over.Keys <= ps
    requires q in e - {SPEC_IMPORT_LOCK} && q !in MissingAt(prior, LOCK_PARENT)
    ensures d in Needed(prior, ps)
  {
    var e1 := Locked(prior, holder);
    if q in over {
      assert q[..|d|] == d;
    } else if q in Needed(e1, ps) {
      var s, k :| s in ps && 0 <= k < |s| && s[..k] !in e1 && s[..k] == q;
      assert s[..|d|] == d;
    } else {
      assert q in prior;
      AboveIsDirectory(prior, d, q);
    }
  }

  lemma {:induction false} ScratchStands(prior: Entries, holder: string, e: Entries, over: Entries, name: string,
                                         ps: set<Place>, d: Place)
    requires SPEC_STAGING_DIR + [name] in ps && d in MissingAt(prior, LOCK_PARENT)
    requires e == After(Locked(prior, holder), over, Needed(Locked(prior, holder), ps))
    ensures Occupied(e - {SPEC_IMPORT_LOCK}, MissingAt(prior, LOCK_PARENT), d)
  {
    var staging := SPEC_STAGING_DIR + [name];
    var e1 := Locked(prior, holder);
    assert staging[..3] == SPEC_STAGING_DIR;
    StagingApart(name);
    assert LOCK_PARENT == SPEC_STAGING_DIR[..2];
    assert d < SPEC_STAGING_DIR;
    assert SPEC_STAGING_DIR !in MissingAt(prior, LOCK_PARENT) by {
      assert forall c :: c in MissingAt(prior, LOCK_PARENT) ==> |c| <= 2;
    }
    if SPEC_STAGING_DIR !in e1 {
      assert SPEC_STAGING_DIR in Needed(e1, ps);
    }
    assert SPEC_STAGING_DIR in e - {SPEC_IMPORT_LOCK};
  }

  lemma {:induction false} UnderLockAt(prior: Entries, holder: string, e: Entries, over: Entries, name: string,
                                       ps: set<Place>, p: Place)
    requires WellFormed(prior) && WellFormed(e) && SPEC_IMPORT_LOCK !in prior
    requires e == After(Locked(prior, holder), over, Needed(Locked(prior, holder), ps))
    requires over.Keys <= ps && (SPEC_STAGING_DIR + [name] in ps || ps == over.Keys)
    requires forall q :: q in ps ==> !(SPEC_IMPORT_LOCK <= q)
    requires SPEC_IMPORT_LOCK !in over && forall c :: c in MissingAt(prior, LOCK_PARENT) ==> c !in over
    ensures Get(Swept(e - {SPEC_IMPORT_LOCK}, MissingAt(prior, LOCK_PARENT)), p)
            == Get(After(prior, over, Needed(prior, ps)), p)
  {
    hide Occupied, Needed, MissingAt, Locked;
    LockedAt(prior, holder, p);
    if p in MissingAt(prior, LOCK_PARENT) {
      LockDirectory(prior, holder, e, over, name, ps, p);
    } else if p != SPEC_IMPORT_LOCK {
      NeededApart(prior, holder, ps, p);
    } else {
      LockNotNeeded(prior, ps);
    }
  }

  lemma LockedAt(prior: Entries, holder: string, p: Place)
    ensures p in MissingAt(prior, LOCK_PARENT) ==>
              p !in prior && p != SPEC_IMPORT_LOCK && Get(Locked(prior, holder), p) == Some(Directory)
  {
    assert p in MissingAt(prior, LOCK_PARENT) ==> |p| <= 2;
    assert |SPEC_IMPORT_LOCK| == 3;
  }

  lemma LockNotNeeded(prior: Entries, ps: set<Place>)
    requires forall q :: q in ps ==> !(SPEC_IMPORT_LOCK <= q)
    ensures SPEC_IMPORT_LOCK !in Needed(prior, ps)
  {
    forall q, k | q in ps && 0 <= k < |q|
      ensures q[..k] != SPEC_IMPORT_LOCK
    {
      assert q[..k] <= q;
    }
  }

  /** Taking the lock and giving it back around a publication changes nothing about what is left. */
  lemma {:induction false} UnderLock(prior: Entries, holder: string, e: Entries, outcome: Outcome, files: seq<StagedFile>,
                                     over: Entries, name: string)
    requires WellFormed(prior) && WellFormed(e) && Importable(files) && SPEC_IMPORT_LOCK !in prior
    requires Ends(e, outcome, files, Locked(prior, holder), over, SPEC_STAGING_DIR + [name])
    ensures Ends(Swept(e - {SPEC_IMPORT_LOCK}, MissingAt(prior, LOCK_PARENT)), outcome, files, prior, over,
                 SPEC_STAGING_DIR + [name])
  {
    var staging := SPEC_STAGING_DIR + [name];
    var lockdirs := MissingAt(prior, LOCK_PARENT);
    var e1 := Locked(prior, holder);
    var ps := Standing(outcome, files, over, staging);
    var e3 := e - {SPEC_IMPORT_LOCK};
    StillOwned(prior, holder, e, outcome, files, over, staging);
    StandingApart(outcome, files, over, name);
    hide Standing, Published, PartOf, Importable, Listed, Locked, MissingAt, Occupied;
    forall p
      ensures Get(Swept(e3, lockdirs), p) == Get(After(prior, over, Needed(prior, ps)), p)
    {
      UnderLockAt(prior, holder, e, over, name, ps, p);
    }
    SameEntries(Swept(e3, lockdirs), After(prior, over, Needed(prior, ps)));
  }
}
