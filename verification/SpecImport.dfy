/**
 * Publishing the pinned specification, from spec_import.rs: prior states, staging, the rename loop
 * and rollback. One import runs here without other writers and with every file
 * operation allowed to fail; ImportProtocol interleaves several.
 */
module SpecImport {
  import opened Json
  import opened FileSystem
  import opened OwnedDirectories

  datatype StagedFile = StagedFile(destination: Place, bytes: string, mode: nat)

  datatype Snapshot = Snapshot(destination: Place, prior: Option<Entry>)

  /** The step that stopped an import. */
  datatype Cause = NoScratch | NoStaging | Unprepared | Unseen(index: nat) | NoParent(index: nat) | NoRename(index: nat)

  /** What an import reports: success, the step's own error, or a rollback that failed for some files. */
  datatype Outcome = Success | Failed(cause: Cause) | SpecRollback(cause: Cause, failures: seq<Place>)

  ghost predicate Distinct(files: seq<StagedFile>) {
    forall i, j :: 0 <= i < j < |files| ==> files[i].destination != files[j].destination
  }

  /** Destinations are distinct and none is the root or lies in the staging area. */
  ghost predicate Publishable(files: seq<StagedFile>, scratch: Place) {
    && Distinct(files)
    && forall f :: f in files ==> f.destination != [] && !(scratch <= f.destination)
  }

  function NewEntry(f: StagedFile): Entry {
    File(f.bytes, f.mode)
  }

  /** The first `k` files at their destinations. */
  ghost function Published(files: seq<StagedFile>, k: nat): Entries
    requires k <= |files|
  {
    if k == 0 then map[] else Published(files, k - 1)[files[k - 1].destination := NewEntry(files[k - 1])]
  }

  ghost function Destinations(files: seq<StagedFile>): set<Place> {
    set f | f in files :: f.destination
  }

  lemma {:induction false} PublishedAt(files: seq<StagedFile>, k: nat)
    requires k <= |files|
    ensures Published(files, k).Keys == Destinations(files[..k])
    ensures Distinct(files) ==>
              forall i :: 0 <= i < k ==> Published(files, k)[files[i].destination] == NewEntry(files[i])
    ensures forall p :: p in Published(files, k) ==> Published(files, k)[p].File?
  {
    if k > 0 {
      PublishedAt(files, k - 1);
      assert files[..k] == files[..k - 1] + [files[k - 1]];
    }
  }

  // ---------- the file system during and after an import ----------

  /** What stands at `p` when `over` is written over `prior` and the directories `made` are added. */
  ghost function Expected(prior: Entries, over: Entries, made: set<Place>, p: Place): Option<Entry> {
    if p in over then Some(over[p]) else if p in made then Some(Directory) else Get(prior, p)
  }

  ghost function After(prior: Entries, over: Entries, made: set<Place>): Entries {
    map p | p in prior.Keys + over.Keys + made :: Expected(prior, over, made, p).value
  }

  /** The directories that `ps` need above them and `prior` does not have. */
  ghost function Needed(prior: Entries, ps: set<Place>): set<Place> {
    set q, k | q in ps && 0 <= k < |q| && q[..k] !in prior :: q[..k]
  }

  /** Every directory of `made` lies above one of `ps`. */
  ghost predicate Purposeful(made: set<Place>, ps: set<Place>) {
    forall d :: d in made ==> exists q :: q in ps && d < q
  }

  ghost predicate Outside(ps: set<Place>, staging: Place) {
    forall p :: p in ps ==> !(staging <= p)
  }

  ghost predicate Midway(e: Entries, prior: Entries, over: Entries, made: set<Place>, staging: Place) {
    forall p :: !(staging <= p) ==> Get(e, p) == Expected(prior, over, made, p)
  }

  ghost predicate OnlyFiles(over: Entries) {
    forall p :: p in over ==> over[p].File?
  }

  /** Between taking the staging directory and giving it back. */
  ghost predicate Running(e: Entries, prior: Entries, over: Entries, made: set<Place>, staging: Place) {
    && WellFormed(e) && WellFormed(prior)
    && Midway(e, prior, over, made, staging)
    && Get(e, staging) == Some(Directory) && staging !in prior && staging != []
    && over.Keys !! made && made !! prior.Keys
    && Outside(made, staging) && Outside(over.Keys, staging) && OnlyFiles(over)
  }

  /** The directories made are exactly those that the written places and the staging directory need. */
  lemma {:induction false} MadeIsNeeded(e: Entries, prior: Entries, over: Entries, made: set<Place>, staging: Place)
    requires Running(e, prior, over, made, staging) && Purposeful(made, over.Keys + {staging})
    ensures made == Needed(prior, over.Keys + {staging})
  {
    var ps := over.Keys + {staging};
    forall q, k | q in ps && 0 <= k < |q| && q[..k] !in prior
      ensures q[..k] in made
    {
      var d := q[..k];
      assert q in e by {
        assert q != staging ==> Get(e, q) == Expected(prior, over, made, q);
      }
      AboveIsDirectory(e, d, q);
      assert !(staging <= d) by {
        assert staging <= d ==> staging < q;
      }
      assert Get(e, d) == Expected(prior, over, made, d);
    }
    forall d | d in made
      ensures d in Needed(prior, ps)
    {
      var q :| q in ps && d < q;
      assert q[..|d|] == d;
    }
  }

  lemma {:induction false} CreateKeepsRunning(e: Entries, prior: Entries, over: Entries, made: set<Place>,
                                              staging: Place, destination: Place, more: set<Place>)
    requires Running(e, prior, over, made, staging) && destination != [] && !(staging <= destination)
    requires more <= MissingAt(e, Parent(destination)) && WellFormed(WithDirectories(e, more))
    ensures Running(WithDirectories(e, more), prior, over, made + more, staging)
    ensures Purposeful(more, {destination})
  {
    forall d | d in more
      ensures d < destination && d !in e && !(staging <= d) && Expected(prior, over, made, d).None?
    {
      assert d <= Parent(destination);
      assert Get(e, d) == Expected(prior, over, made, d);
    }
    var e1 := WithDirectories(e, more);
    forall p | !(staging <= p)
      ensures Get(e1, p) == Expected(prior, over, made + more, p)
    {
      assert Get(e, p) == Expected(prior, over, made, p);
    }
  }

  lemma {:induction false} RenameKeepsRunning(e: Entries, prior: Entries, over: Entries, made: set<Place>,
                                              staging: Place, from: Place, to: Place, e1: Entries)
    requires Running(e, prior, over, made, staging) && !(staging <= to) && staging < from
    requires from in e && e[from].File? && (to in e ==> e[to].File?)
    requires e1 == (e - {from})[to := e[from]] && WellFormed(e1)
    ensures Running(e1, prior, over[to := e[from]], made, staging)
  {
    assert Get(e, to) == Expected(prior, over, made, to);
    forall p | !(staging <= p)
      ensures Get(e1, p) == Expected(prior, over[to := e[from]], made, p)
    {
      assert Get(e, p) == Expected(prior, over, made, p);
    }
  }

  lemma Comparable(d: Place, s: Place, q: Place)
    requires d <= q && s <= q
    ensures d < s || s <= d
  {
    assert d == q[..|d|] && s == q[..|s|];
  }

  /** Giving up the owned directories in the middle keeps those that something stands on. */
  lemma {:induction false} DrainKeepsRunning(e: Entries, prior: Entries, over: Entries, made: set<Place>, staging: Place)
    returns (kept: set<Place>)
    requires Running(e, prior, over, made, staging) && WellFormed(Swept(e, made))
    ensures Running(Swept(e, made), prior, over, kept, staging)
    ensures kept <= made && Purposeful(kept, over.Keys + {staging})
  {
    kept := set d | d in made && Occupied(e, made, d);
    forall d | d in kept
      ensures exists q :: q in over.Keys + {staging} && d < q
    {
      var q :| q in e && q !in made && d < q;
      if staging <= q {
        Comparable(d, staging, q);
        assert d in made;
        assert d < staging && staging in over.Keys + {staging};
      } else {
        assert Get(e, q) == Expected(prior, over, made, q);
        if q in prior && d !in prior {
          AboveIsDirectory(prior, d, q);
        }
        assert q in over.Keys + {staging};
      }
    }
    forall p | !(staging <= p)
      ensures Get(Swept(e, made), p) == Expected(prior, over, kept, p)
    {
      assert Get(e, p) == Expected(prior, over, made, p);
    }
  }

  /** Undoing one replacement takes it off what has been written. */
  lemma {:induction false} RestoreKeepsRunning(e: Entries, prior: Entries, over: Entries, made: set<Place>,
                                               staging: Place, p: Place, e1: Entries)
    requires Running(e, prior, over, made, staging) && p in over && WellFormed(e1)
    requires p in prior ==> e1 == e[p := prior[p]]
    requires p !in prior ==> e1 == e - {p}
    ensures Running(e1, prior, over - {p}, made, staging)
  {
    forall q | !(staging <= q)
      ensures Get(e1, q) == Expected(prior, over - {p}, made, q)
    {
      assert Get(e, q) == Expected(prior, over, made, q);
    }
    assert staging != p;
  }

  /** Removing the staging directory leaves exactly what was written and made. */
  lemma {:induction false} CleanupEndsRunning(e: Entries, prior: Entries, over: Entries, made: set<Place>, staging: Place)
    requires Running(e, prior, over, made, staging)
    ensures (map q | q in e && !(staging <= q) :: e[q]) == After(prior, over, made)
  {
    var e1 := map q | q in e && !(staging <= q) :: e[q];
    forall p
      ensures Get(e1, p) == Get(After(prior, over, made), p)
    {
      if staging <= p {
        if p in prior && p != staging {
          AboveIsDirectory(prior, staging, p);
        }
      } else {
        assert Get(e, p) == Expected(prior, over, made, p);
      }
    }
    SameEntries(e1, After(prior, over, made));
  }

  /** Sweeping what was made keeps the directories above what is still written. */
  lemma {:induction false} SweepAfter(prior: Entries, over: Entries, made: set<Place>)
    requires WellFormed(prior) && made !! prior.Keys && made !! over.Keys
    requires WellFormed(After(prior, over, made)) && OnlyFiles(over)
    ensures Swept(After(prior, over, made), made) == After(prior, over, Needed(prior, over.Keys))
  {
    var e := After(prior, over, made);
    var kept := Needed(prior, over.Keys);
    forall d
      ensures d in made && Occupied(e, made, d) <==> d in kept
    {
      if d in made && Occupied(e, made, d) {
        var q :| q in e && q !in made && d < q;
        if q !in over {
          AboveIsDirectory(prior, d, q);
        }
        assert q[..|d|] == d;
      }
      if d in kept {
        var q, k :| q in over.Keys && 0 <= k < |q| && q[..k] !in prior && q[..k] == d;
        AboveIsDirectory(e, d, q);
      }
    }
    forall p
      ensures Get(Swept(e, made), p) == Get(After(prior, over, kept), p)
    {
    }
    SameEntries(Swept(e, made), After(prior, over, kept));
  }

  // ---------- prior states and staging ----------

  /** A snapshot, when there is one, is the entry at the destination, which is a file or absent. */
  method TakeSnapshot(disk: Disk, destination: Place) returns (r: Option<Snapshot>)
    modifies disk`refusals
    ensures r.Some? ==> r.value == Snapshot(destination, Get(disk.entries, destination))
    ensures r.Some? && r.value.prior.Some? ==> r.value.prior.value.File?
    ensures disk.refusals == old(disk.refusals) + (if r.Some? then 0 else 1)
            || (r.None? && disk.refusals == old(disk.refusals) && Get(disk.entries, destination) == Some(Directory))
  {
    var look := disk.Look(destination);
    match look {
      case Blocked => r := None;
      case Missing => r := Some(Snapshot(destination, None));
      case Found =>
        r := None;
        if disk.entries[destination].File? {
          var entry := disk.ReadFile(destination);
          r := if entry.Some? then Some(Snapshot(destination, entry)) else None;
        }
    }
  }

  ghost predicate SameOutside(now: Entries, before: Entries, staging: Place) {
    forall p :: !(staging < p) ==> Get(now, p) == Get(before, p)
  }

  /** The files from `from` on wait in the staging directory. */
  ghost predicate StagedFrom(e: Entries, files: seq<StagedFile>, staging: Place, from: nat) {
    forall i :: from <= i < |files| ==> Get(e, staging + files[i].destination) == Some(NewEntry(files[i]))
  }

  ghost predicate Faithful(snapshots: seq<Snapshot>, files: seq<StagedFile>, prior: Entries) {
    && |snapshots| == |files|
    && forall i :: 0 <= i < |files| ==>
         && snapshots[i] == Snapshot(files[i].destination, Get(prior, files[i].destination))
         && (snapshots[i].prior.Some? ==> snapshots[i].prior.value.File?)
  }

  /** When it succeeds, `staging` holds all the files and the prior states are known; outside `staging` nothing changes. */
  method Prepare(disk: Disk, files: seq<StagedFile>, staging: Place) returns (r: Option<seq<Snapshot>>)
    requires disk.Valid() && Get(disk.entries, staging) == Some(Directory) && Distinct(files)
    requires forall f :: f in files ==> f.destination != [] && !(staging <= f.destination)
    modifies disk
    ensures disk.Valid() && SameOutside(disk.entries, old(disk.entries), staging)
    ensures r.Some? ==> StagedFrom(disk.entries, files, staging, 0) && Faithful(r.value, files, disk.entries)
    ensures disk.refusals == old(disk.refusals) + (if r.Some? then 0 else 1)
            || (r.None? && disk.refusals == old(disk.refusals) &&
                exists f :: f in files && Get(disk.entries, f.destination) == Some(Directory))
  {
    hide SameOutside, Faithful, Distinct;
    ghost var e := disk.entries;
    NothingOutside(e, staging);
    for i := 0 to |files|
      invariant disk.Valid() && SameOutside(disk.entries, e, staging) && disk.refusals == old(disk.refusals)
      invariant StagedFrom(disk.entries, files[..i], staging, 0)
    {
      var target := staging + files[i].destination;
      ghost var e1 := disk.entries;
      assert files[i] in files;
      StillOutside(e1, e, staging);
      var ok := disk.CreateDirAll(Parent(target));
      ghost var e2 := disk.entries;
      DirectoriesInside(e1, e2, staging, files[i].destination);
      SameOutsideThen(e2, e1, e, staging);
      if !ok {
        return None;
      }
      ok := disk.WriteFile(target, files[i].bytes, files[i].mode);
      WrittenInside(disk.entries, e2, staging, target);
      SameOutsideThen(disk.entries, e2, e, staging);
      if !ok {
        return None;
      }
      StagedOneMore(e1, e2, disk.entries, files, staging, i);
    }
    assert files[..|files|] == files;
    NothingTaken(disk.entries);
    var snapshots: seq<Snapshot> := [];
    for i := 0 to |files|
      invariant disk.Valid() && SameOutside(disk.entries, e, staging) && disk.refusals == old(disk.refusals)
      invariant StagedFrom(disk.entries, files, staging, 0)
      invariant Faithful(snapshots, files[..i], disk.entries)
    {
      assert files[i] in files;
      var s := TakeSnapshot(disk, files[i].destination);
      if s.None? {
        return None;
      }
      OneMoreTaken(snapshots, files, i, disk.entries, s.value);
      snapshots := snapshots + [s.value];
    }
    r := Some(snapshots);
  }

  lemma NothingOutside(e: Entries, staging: Place)
    ensures SameOutside(e, e, staging)
  {
  }

  lemma StillOutside(now: Entries, before: Entries, staging: Place)
    requires SameOutside(now, before, staging)
    ensures Get(now, staging) == Get(before, staging)
  {
  }

  lemma SameOutsideThen(now: Entries, between: Entries, before: Entries, staging: Place)
    requires SameOutside(now, between, staging) && SameOutside(between, before, staging)
    ensures SameOutside(now, before, staging)
  {
  }

  lemma WrittenInside(now: Entries, before: Entries, staging: Place, target: Place)
    requires staging < target && forall p :: p != target ==> Get(now, p) == Get(before, p)
    ensures SameOutside(now, before, staging)
  {
  }

  lemma NothingTaken(prior: Entries)
    ensures Faithful([], [], prior)
  {
  }

  lemma OneMoreTaken(snapshots: seq<Snapshot>, files: seq<StagedFile>, i: nat, prior: Entries, s: Snapshot)
    requires i < |files| && Faithful(snapshots, files[..i], prior)
    requires s == Snapshot(files[i].destination, Get(prior, s.destination)) && (s.prior.Some? ==> s.prior.value.File?)
    ensures Faithful(snapshots + [s], files[..i + 1], prior)
  {
  }

  lemma DirectoriesInside(e: Entries, e1: Entries, staging: Place, destination: Place)
    requires WellFormed(e) && Get(e, staging) == Some(Directory) && destination != []
    requires exists ds :: ds <= MissingAt(e, Parent(staging + destination)) && e1 == WithDirectories(e, ds)
    ensures SameOutside(e1, e, staging)
    ensures forall p :: p in e ==> Get(e1, p) == Get(e, p)
  {
    var ds :| ds <= MissingAt(e, Parent(staging + destination)) && e1 == WithDirectories(e, ds);
    forall d | d in ds
      ensures staging < d
    {
      var target := staging + destination;
      assert d !in e && d <= Parent(target) && Parent(target) <= target && staging <= target;
      Comparable(d, staging, target);
      if d < staging {
        AboveIsDirectory(e, d, staging);
      }
      assert d != staging;
    }
  }

  lemma {:induction false} StagedOneMore(e: Entries, e1: Entries, e2: Entries, files: seq<StagedFile>, staging: Place, i: nat)
    requires i < |files| && Distinct(files) && StagedFrom(e, files[..i], staging, 0)
    requires forall p :: p in e ==> Get(e1, p) == Get(e, p)
    requires e2 == e1[staging + files[i].destination := NewEntry(files[i])]
    ensures StagedFrom(e2, files[..i + 1], staging, 0)
  {
    forall j | 0 <= j < i + 1
      ensures Get(e2, staging + files[j].destination) == Some(NewEntry(files[j]))
    {
      var p := staging + files[j].destination;
      assert p[|staging|..] == files[j].destination;
      if j < i {
        assert files[..i][j] == files[j];
        assert Get(e, p) == Some(NewEntry(files[j]));
        assert (staging + files[i].destination)[|staging|..] == files[i].destination;
      }
    }
  }

  // ---------- rollback ----------

  /** The destinations among the first `k` that are in `over`, in publication order. */
  ghost function Listed(files: seq<StagedFile>, k: nat, over: Entries): (r: seq<Place>)
    requires k <= |files|
    ensures forall p :: p in r <==> p in over && p in Destinations(files[..k])
  {
    if k == 0 then []
    else
      assert files[..k] == files[..k - 1] + [files[k - 1]];
      Listed(files, k - 1, over) + if files[k - 1].destination in over then [files[k - 1].destination] else []
  }

  lemma {:induction false} ListedWithout(files: seq<StagedFile>, k: nat, over: Entries, i: nat)
    requires k <= i < |files| && Distinct(files)
    ensures Listed(files, k, over - {files[i].destination}) == Listed(files, k, over)
  {
    if k > 0 {
      ListedWithout(files, k - 1, over, i);
    }
  }

  /** Files that stayed behind are reported in the order in which they were published. */
  lemma {:induction false} ListedInOrder(files: seq<StagedFile>, k: nat, over: Entries, n: nat, m: nat)
    requires k <= |files| && n < m < |Listed(files, k, over)|
    ensures exists i, j :: 0 <= i < j < k && files[i].destination == Listed(files, k, over)[n]
                           && files[j].destination == Listed(files, k, over)[m]
  {
    if k > 0 {
      var before := Listed(files, k - 1, over);
      if m < |before| {
        ListedInOrder(files, k - 1, over, n, m);
      } else {
        assert before[n] in before;
        var f :| f in files[..k - 1] && f.destination == before[n];
        var i :| 0 <= i < k - 1 && files[..k - 1][i] == f;
        assert files[i].destination == before[n] && files[k - 1].destination == Listed(files, k, over)[m];
      }
    }
  }

  ghost predicate PartOf(over: Entries, all: Entries) {
    forall p :: p in over ==> p in all && over[p] == all[p]
  }

  lemma NothingListed(files: seq<StagedFile>, over: Entries)
    ensures PartOf(over, over) && Listed(files, 0, over) == []
  {
  }

  lemma {:induction false} EmptyIffNoneListed(files: seq<StagedFile>, k: nat, over: Entries)
    requires k <= |files| && PartOf(over, Published(files, k))
    ensures over == map[] <==> Listed(files, k, over) == []
  {
    PublishedAt(files, k);
    var l := Listed(files, k, over);
    assert l != [] ==> l[0] in l;
    if p :| p in over {
      assert p in Destinations(files[..k]);
      assert p in Listed(files, k, over);
    } else {
      assert over == map[];
    }
  }

  lemma SnapshotFacts(snapshots: seq<Snapshot>, files: seq<StagedFile>, prior: Entries, i: nat)
    requires Faithful(snapshots, files, prior) && i < |files|
    ensures i < |snapshots| && snapshots[i].destination == files[i].destination
    ensures snapshots[i].prior == Get(prior, files[i].destination)
    ensures snapshots[i].prior.Some? ==> snapshots[i].prior.value.File?
  {
  }

  /** What remains to be undone once every restoration was tried. */
  lemma UnwindRunning(e: Entries, prior: Entries, over: Entries, made: set<Place>, staging: Place, owned: set<Place>)
    requires Running(e, prior, over, made, staging) && (owned == made || owned == {})
    ensures staging != []
    ensures var e1 := map q | q in e && !(staging <= q) :: e[q];
            e1 == After(prior, over, made) && OnlyDirectories(e1, owned) &&
            (WellFormed(e1) ==>
               Swept(e1, owned) == if owned == made then After(prior, over, Needed(prior, over.Keys))
                                   else After(prior, over, made))
  {
    CleanupEndsRunning(e, prior, over, made, staging);
    var e1 := After(prior, over, made);
    forall d | d in made
      ensures d != [] && e1[d] == Directory
    {
      assert [] in prior;
    }
    if owned == {} {
      SameEntries(Swept(e1, {}), e1);
    }
    if owned == made && WellFormed(e1) {
      SweepAfter(prior, over, made);
    }
  }

  /** The report after trying to restore everything: the error itself, or the files that stayed behind. */
  ghost predicate Reports(outcome: Outcome, cause: Cause, files: seq<StagedFile>, k: nat, over: Entries)
    requires k <= |files|
  {
    outcome == if over == map[] then Failed(cause) else SpecRollback(cause, Listed(files, k, over))
  }

  /** How many files could not be put back. */
  function LeftBehind(outcome: Outcome): nat {
    match outcome
    case SpecRollback(_, failures) => |failures|
    case _ => 0
  }

  /** Puts one destination back. A refused restoration leaves the new file. */
  method Restore(disk: Disk, state: Snapshot) returns (ok: bool)
    requires disk.Valid() && state.destination != [] && (state.prior.Some? ==> state.prior.value.File?)
    modifies disk
    ensures disk.Valid()
    ensures disk.entries == if !ok then old(disk.entries)
                            else if state.prior.Some? then old(disk.entries)[state.destination := state.prior.value]
                            else old(disk.entries) - {state.destination}
    ensures disk.refusals == old(disk.refusals) + if ok then 0 else 1
  {
    match state.prior
    case Some(entry) => ok := disk.ReplaceBytes(state.destination, entry.bytes, entry.mode);
    case None => ok := disk.RemoveFile(state.destination);
  }

  lemma RollbackStart(e: Entries, prior: Entries, files: seq<StagedFile>, k: nat, made: set<Place>, staging: Place)
    requires k <= |files| && Running(e, prior, Published(files, k), made, staging)
    ensures WellFormed(e)
    ensures forall j :: 0 <= j < k ==> files[j].destination in Published(files, k)
  {
    PublishedAt(files, k);
    forall j | 0 <= j < k
      ensures files[j].destination in Published(files, k)
    {
      assert files[..k][j] == files[j];
      assert files[j].destination in Destinations(files[..k]);
    }
  }

  /** Putting back the next destination takes it off the list; leaving it puts it at the end. */
  lemma {:induction false} ListedNext(files: seq<StagedFile>, i: nat, n: nat, over: Entries, all: Entries)
    requires i < n <= |files| && Distinct(files) && PartOf(over, all)
    requires forall j :: i <= j < n ==> files[j].destination in over
    ensures var d := files[i].destination;
            && Listed(files, i + 1, over - {d}) == Listed(files, i, over)
            && Listed(files, i + 1, over) == Listed(files, i, over) + [d]
            && PartOf(over - {d}, all)
            && forall j :: i < j < n ==> files[j].destination in over - {d}
  {
    ListedWithout(files, i, over, i);
  }

  /** Tries to put back the first `published` destinations; `over` is what still holds new bytes. */
  method RestoreAll(disk: Disk, snapshots: seq<Snapshot>, published: nat, ghost files: seq<StagedFile>,
                    ghost prior: Entries, ghost made: set<Place>, ghost staging: Place)
    returns (failures: seq<Place>, ghost over: Entries)
    requires Publishable(files, staging) && published <= |files| && Faithful(snapshots, files, prior)
    requires Running(disk.entries, prior, Published(files, published), made, staging)
    modifies disk
    ensures disk.Valid() && Running(disk.entries, prior, over, made, staging)
    ensures PartOf(over, Published(files, published)) && failures == Listed(files, published, over)
    ensures disk.refusals == old(disk.refusals) + |failures|
  {
    hide Running, Faithful, WellFormed, Published, PartOf, Listed, Distinct;
    failures := [];
    NothingListed(files, Published(files, published));
    over := Published(files, published);
    RollbackStart(disk.entries, prior, files, published, made, staging);
    for i := 0 to published
      invariant disk.Valid() && Running(disk.entries, prior, over, made, staging)
      invariant PartOf(over, Published(files, published)) && failures == Listed(files, i, over)
      invariant disk.refusals == old(disk.refusals) + |failures|
      invariant forall j :: i <= j < published ==> files[j].destination in over
    {
      assert files[i] in files;
      SnapshotFacts(snapshots, files, prior, i);
      ghost var e := disk.entries;
      var ok := Restore(disk, snapshots[i]);
      ListedNext(files, i, published, over, Published(files, published));
      if ok {
        RestoreKeepsRunning(e, prior, over, made, staging, files[i].destination, disk.entries);
        over := over - {files[i].destination};
      } else {
        failures := failures + [snapshots[i].destination];
      }
    }
  }

  /**
   * Restores every destination already replaced, gives back the staging directory and the directories
   * still owned, and reports which destinations could not be restored.
   */
  method Rollback(disk: Disk, staging: Place, created: CreatedDirectories, snapshots: seq<Snapshot>, published: nat,
                  cause: Cause, ghost files: seq<StagedFile>, ghost prior: Entries, ghost made: set<Place>)
    returns (outcome: Outcome, ghost over: Entries)
    requires Publishable(files, staging) && published <= |files| && Faithful(snapshots, files, prior)
    requires Running(disk.entries, prior, Published(files, published), made, staging)
    requires created.Dirs() == made || created.Dirs() == {}
    modifies disk, created
    ensures disk.Valid() && PartOf(over, Published(files, published)) && Reports(outcome, cause, files, published, over)
    ensures disk.entries == if old(created.Dirs()) == made then After(prior, over, Needed(prior, over.Keys))
                            else After(prior, over, made)
    ensures !outcome.Success? && disk.refusals == old(disk.refusals) + LeftBehind(outcome)
  {
    hide Running, Faithful, WellFormed, Published, After, Needed, Swept, PartOf;
    var failures: seq<Place>;
    failures, over := RestoreAll(disk, snapshots, published, files, prior, made, staging);
    UnwindRunning(disk.entries, prior, over, made, staging, created.Dirs());
    disk.RemoveTree(staging);
    EmptyIffNoneListed(files, published, over);
    created.Remove(disk);
    outcome := if failures == [] then Failed(cause) else SpecRollback(cause, failures);
  }

  // ---------- the rename loop ----------

  /** What the loop keeps: the first `k` files are published, the others wait, every directory made is owned. */
  ghost predicate Publishing(e: Entries, files: seq<StagedFile>, k: nat, prior: Entries, made: set<Place>, staging: Place)
    requires k <= |files|
  {
    && Running(e, prior, Published(files, k), made, staging)
    && StagedFrom(e, files, staging, k)
    && Purposeful(made, Destinations(files[..k]) + {staging})
  }

  lemma AddedKeepsStaged(e: Entries, files: seq<StagedFile>, k: nat, staging: Place, more: set<Place>)
    requires StagedFrom(e, files, staging, k)
    ensures StagedFrom(WithDirectories(e, more), files, staging, k)
  {
    forall i | k <= i < |files|
      ensures Get(WithDirectories(e, more), staging + files[i].destination) == Some(NewEntry(files[i]))
    {
      assert Get(e, staging + files[i].destination) == Some(NewEntry(files[i]));
    }
  }

  lemma {:induction false} MorePurpose(made: set<Place>, more: set<Place>, files: seq<StagedFile>, k: nat, staging: Place)
    requires k < |files| && Purposeful(made, Destinations(files[..k]) + {staging})
    requires Purposeful(more, {files[k].destination})
    ensures Purposeful(made + more, Destinations(files[..k + 1]) + {staging})
  {
    assert files[..k + 1] == files[..k] + [files[k]];
    assert Destinations(files[..k + 1]) == Destinations(files[..k]) + {files[k].destination};
    var ps := Destinations(files[..k + 1]) + {staging};
    forall d | d in made + more
      ensures exists q :: q in ps && d < q
    {
      if d in made {
        var q :| q in Destinations(files[..k]) + {staging} && d < q;
        assert q in ps;
      } else {
        assert files[k].destination in ps;
      }
    }
  }

  lemma {:induction false} ParentReady(e: Entries, files: seq<StagedFile>, k: nat, prior: Entries, made: set<Place>,
                                       staging: Place, more: set<Place>)
    requires k < |files| && Publishing(e, files, k, prior, made, staging) && Publishable(files, staging)
    requires more <= MissingAt(e, Parent(files[k].destination)) && WellFormed(WithDirectories(e, more))
    ensures Running(WithDirectories(e, more), prior, Published(files, k), made + more, staging)
    ensures StagedFrom(WithDirectories(e, more), files, staging, k)
    ensures Purposeful(made + more, Destinations(files[..k + 1]) + {staging})
  {
    assert files[k] in files;
    hide Running, WellFormed, Published, Purposeful, StagedFrom, Destinations, WithDirectories, Distinct;
    CreateKeepsRunning(e, prior, Published(files, k), made, staging, files[k].destination, more);
    AddedKeepsStaged(e, files, k, staging, more);
    MorePurpose(made, more, files, k, staging);
  }

  lemma {:induction false} RenameKeepsStaged(e: Entries, files: seq<StagedFile>, k: nat, staging: Place)
    requires k < |files| && Publishable(files, staging) && StagedFrom(e, files, staging, k)
    ensures staging + files[k].destination in e && e[staging + files[k].destination] == NewEntry(files[k])
    ensures staging < staging + files[k].destination && staging + files[k].destination != files[k].destination
    ensures StagedFrom((e - {staging + files[k].destination})[files[k].destination := NewEntry(files[k])],
                       files, staging, k + 1)
  {
    var from := staging + files[k].destination;
    assert files[k] in files;
    assert Get(e, from) == Some(NewEntry(files[k]));
    assert staging <= from;
    forall i | k < i < |files|
      ensures Get((e - {from})[files[k].destination := NewEntry(files[k])], staging + files[i].destination)
              == Some(NewEntry(files[i]))
    {
      assert Get(e, staging + files[i].destination) == Some(NewEntry(files[i]));
      assert (staging + files[i].destination)[|staging|..] == files[i].destination;
      assert from[|staging|..] == files[k].destination;
      assert staging <= staging + files[i].destination;
    }
  }

  lemma {:induction false} RenameReady(e: Entries, files: seq<StagedFile>, k: nat, prior: Entries, made: set<Place>,
                                       staging: Place, e1: Entries)
    requires k < |files| && Publishable(files, staging)
    requires Running(e, prior, Published(files, k), made, staging) && StagedFrom(e, files, staging, k)
    requires Purposeful(made, Destinations(files[..k + 1]) + {staging})
    requires files[k].destination in e ==> e[files[k].destination].File?
    requires e1 == (e - {staging + files[k].destination})[files[k].destination := NewEntry(files[k])] && WellFormed(e1)
    ensures Publishing(e1, files, k + 1, prior, made, staging)
  {
    assert files[k] in files;
    hide Running, WellFormed, Purposeful, StagedFrom, Destinations, Distinct;
    RenameKeepsStaged(e, files, k, staging);
    RenameKeepsRunning(e, prior, Published(files, k), made, staging, staging + files[k].destination,
                       files[k].destination, e1);
  }

  lemma RunningOwns(e: Entries, prior: Entries, over: Entries, made: set<Place>, staging: Place)
    requires Running(e, prior, over, made, staging)
    ensures WellFormed(e) && OnlyDirectories(e, made)
  {
    forall d | d in made
      ensures d != [] && (d in e ==> e[d].Directory?)
    {
      assert [] in prior;
      assert Get(e, d) == Expected(prior, over, made, d);
    }
  }

  /** The places whose directories stay: what still stands, and whatever stood when ownership was given up. */
  ghost function Standing(outcome: Outcome, files: seq<StagedFile>, over: Entries, staging: Place): set<Place>
    requires outcome.Success? || (outcome.cause.NoParent? ==> outcome.cause.index <= |files|)
  {
    if outcome.Success? then Destinations(files) + {staging}
    else match outcome.cause
      case NoParent(k) => Published(files, k).Keys + {staging}
      case NoStaging => {staging}
      case _ => over.Keys
  }

  /** What an import reports and leaves, whatever failed. */
  ghost predicate Ends(e: Entries, outcome: Outcome, files: seq<StagedFile>, prior: Entries, over: Entries, staging: Place) {
    && PartOf(over, Published(files, |files|))
    && (outcome.Success? ==> over == Published(files, |files|))
    && (outcome.Failed? ==> over == map[])
    && (outcome.SpecRollback? ==> over != map[] && outcome.failures == Listed(files, |files|, over))
    && (!outcome.Success? && outcome.cause.NoParent? ==> outcome.cause.index <= |files|)
    && over.Keys <= Standing(outcome, files, over, staging)
    && e == After(prior, over, Needed(prior, Standing(outcome, files, over, staging)))
  }

  lemma {:induction false} FewerPublished(files: seq<StagedFile>, k: nat, n: nat)
    requires k <= n <= |files| && Distinct(files)
    ensures PartOf(Published(files, k), Published(files, n))
  {
    PublishedAt(files, k);
    PublishedAt(files, n);
    forall p | p in Published(files, k)
      ensures p in Published(files, n) && Published(files, k)[p] == Published(files, n)[p]
    {
      var f :| f in files[..k] && f.destination == p;
      var i :| 0 <= i < k && files[i] == f;
      assert files[..n][i] == f;
    }
  }

  lemma {:induction false} ListedSoFar(files: seq<StagedFile>, k: nat, n: nat, over: Entries)
    requires k <= n <= |files| && Distinct(files) && over.Keys <= Destinations(files[..k])
    ensures Listed(files, n, over) == Listed(files, k, over)
  {
    if k < n {
      ListedSoFar(files, k, n - 1, over);
      assert forall i :: 0 <= i < k ==> files[..k][i].destination != files[n - 1].destination;
      assert files[n - 1].destination !in Destinations(files[..k]);
    }
  }

  lemma RestIsUnwritten(files: seq<StagedFile>, k: nat, over: Entries)
    requires k <= |files| && Distinct(files) && PartOf(over, Published(files, k))
    ensures PartOf(over, Published(files, |files|)) && Listed(files, |files|, over) == Listed(files, k, over)
  {
    hide Distinct, Listed, Destinations;
    FewerPublished(files, k, |files|);
    PublishedAt(files, k);
    ListedSoFar(files, k, |files|, over);
  }

  lemma StandingCovers(outcome: Outcome, files: seq<StagedFile>, k: nat, over: Entries, staging: Place, cause: Cause)
    requires k <= |files| && cause in {Unseen(k), NoParent(k), NoRename(k)} && PartOf(over, Published(files, k))
    requires outcome == Failed(cause) || exists l :: outcome == SpecRollback(cause, l)
    ensures over.Keys <= Standing(outcome, files, over, staging)
  {
    hide Published;
  }

  lemma {:induction false} RolledBackEnds(e: Entries, outcome: Outcome, files: seq<StagedFile>, k: nat, prior: Entries,
                                          over: Entries, staging: Place, cause: Cause)
    requires k <= |files| && Distinct(files) && cause in {Unseen(k), NoParent(k), NoRename(k)}
    requires PartOf(over, Published(files, k)) && Reports(outcome, cause, files, k, over)
    requires e == After(prior, over, Needed(prior, Standing(outcome, files, over, staging)))
    ensures Ends(e, outcome, files, prior, over, staging)
  {
    hide After, Needed, Distinct, Published, PartOf, Listed, Standing;
    StandingCovers(outcome, files, k, over, staging, cause);
    RestIsUnwritten(files, k, over);
  }

  lemma NeededGrows(prior: Entries, over: Entries, all: Entries, more: set<Place>)
    requires PartOf(over, all)
    ensures Needed(prior, over.Keys) <= Needed(prior, all.Keys + more)
  {
  }

  lemma {:induction false} GivenUpEnds(e: Entries, outcome: Outcome, files: seq<StagedFile>, k: nat, prior: Entries,
                                       over: Entries, staging: Place, kept: set<Place>)
    requires k <= |files| && Publishable(files, staging)
    requires PartOf(over, Published(files, k)) && Reports(outcome, NoParent(k), files, k, over)
    requires kept == Needed(prior, Published(files, k).Keys + {staging})
    requires e == if {} == kept then After(prior, over, Needed(prior, over.Keys)) else After(prior, over, kept)
    ensures Ends(e, outcome, files, prior, over, staging)
  {
    hide Needed, After, PartOf, Listed, Published, Distinct, Ends;
    assert e == After(prior, over, kept) by {
      NeededGrows(prior, over, Published(files, k), {staging});
      hide Reports, Publishable;
      if kept == {} {
        assert Needed(prior, over.Keys) == kept;
      }
    }
    assert Standing(outcome, files, over, staging) == Published(files, k).Keys + {staging};
    hide Standing, Reports;
    RolledBackEnds(e, outcome, files, k, prior, over, staging, NoParent(k));
  }

  lemma {:induction false} AllPublished(e: Entries, files: seq<StagedFile>, prior: Entries, made: set<Place>, staging: Place)
    requires Publishing(e, files, |files|, prior, made, staging)
    ensures staging != []
    ensures Ends(map q | q in e && !(staging <= q) :: e[q], Success, files, prior, Published(files, |files|), staging)
  {
    PublishedAt(files, |files|);
    assert files[..|files|] == files;
    MadeIsNeeded(e, prior, Published(files, |files|), made, staging);
    CleanupEndsRunning(e, prior, Published(files, |files|), made, staging);
  }

  lemma {:induction false} UndoneEnds(e: Entries, outcome: Outcome, files: seq<StagedFile>, k: nat, prior: Entries,
                                      over: Entries, staging: Place, cause: Cause)
    requires k <= |files| && Publishable(files, staging) && (cause == Unseen(k) || cause == NoRename(k))
    requires PartOf(over, Published(files, k)) && Reports(outcome, cause, files, k, over)
    requires e == After(prior, over, Needed(prior, over.Keys))
    ensures Ends(e, outcome, files, prior, over, staging)
  {
    hide After, Needed, Distinct, Published, PartOf, Listed, Ends;
    RolledBackEnds(e, outcome, files, k, prior, over, staging, cause);
  }

  /** Giving up the directories leaves those that hold something, which are the ones the destinations need. */
  lemma DrainedIsNeeded(e: Entries, files: seq<StagedFile>, k: nat, prior: Entries, made: set<Place>, staging: Place)
    returns (kept: set<Place>)
    requires k <= |files| && Running(e, prior, Published(files, k), made, staging) && WellFormed(Swept(e, made))
    ensures Running(Swept(e, made), prior, Published(files, k), kept, staging)
    ensures kept == Needed(prior, Published(files, k).Keys + {staging})
  {
    hide Running, Swept, WellFormed, Purposeful, Needed, Published;
    kept := DrainKeepsRunning(e, prior, Published(files, k), made, staging);
    MadeIsNeeded(Swept(e, made), prior, Published(files, k), kept, staging);
  }

  lemma NextToPublish(e: Entries, files: seq<StagedFile>, k: nat, prior: Entries, made: set<Place>, staging: Place)
    requires Publishable(files, staging) && k < |files| && Publishing(e, files, k, prior, made, staging)
    ensures files[k].destination != [] && Running(e, prior, Published(files, k), made, staging)
    ensures WellFormed(e) && OnlyDirectories(e, made)
  {
    assert files[k] in files;
    hide Running, WellFormed, OnlyDirectories, Purposeful, StagedFrom, Distinct;
    RunningOwns(e, prior, Published(files, k), made, staging);
  }

  /** However the loop ends, the disk is in the state that belongs to the outcome it reports. */
  method PublishStaged(disk: Disk, files: seq<StagedFile>, staging: Place, created: CreatedDirectories,
                       snapshots: seq<Snapshot>, ghost prior: Entries)
    returns (outcome: Outcome, ghost over: Entries)
    requires Publishable(files, staging) && Faithful(snapshots, files, prior)
    requires Publishing(disk.entries, files, 0, prior, created.Dirs(), staging)
    modifies disk, created
    ensures disk.Valid() && Ends(disk.entries, outcome, files, prior, over, staging)
    ensures disk.refusals == old(disk.refusals) + (if outcome.Success? then 0 else 1) + LeftBehind(outcome)
  {
    hide Running, WellFormed, Published, Purposeful, StagedFrom, Destinations, After, Needed, Listed, PartOf, Faithful,
      Ends, Reports, OnlyDirectories, Publishable, WithDirectories, Swept;
    var published := 0;
    RunningOwns(disk.entries, prior, Published(files, 0), created.Dirs(), staging);
    hide Publishing;
    for index := 0 to |files|
      invariant published == index && disk.Valid() && disk.refusals == old(disk.refusals)
      invariant Publishing(disk.entries, files, index, prior, created.Dirs(), staging)
    {
      var destination := files[index].destination;
      ghost var e, made := disk.entries, created.Dirs();
      NextToPublish(e, files, index, prior, made, staging);
      var provision, more := created.Create(disk, Parent(destination));
      if provision.NotSeen? {
        outcome, over := Rollback(disk, staging, created, snapshots, published, Unseen(index), files, prior, made);
        UndoneEnds(disk.entries, outcome, files, index, prior, over, staging, Unseen(index));
        return;
      }
      ParentReady(e, files, index, prior, made, staging, more);
      if provision.GivenUp? {
        ghost var kept := DrainedIsNeeded(WithDirectories(e, more), files, index, prior, made + more, staging);
        assert created.Dirs() == {};
        outcome, over := Rollback(disk, staging, created, snapshots, published, NoParent(index), files, prior, kept);
        GivenUpEnds(disk.entries, outcome, files, index, prior, over, staging, kept);
        return;
      }
      RenameKeepsStaged(disk.entries, files, index, staging);
      ghost var e1 := disk.entries;
      var ok := disk.Rename(staging + destination, destination);
      if !ok {
        outcome, over := Rollback(disk, staging, created, snapshots, published, NoRename(index), files, prior, made + more);
        UndoneEnds(disk.entries, outcome, files, index, prior, over, staging, NoRename(index));
        return;
      }
      RenameReady(e1, files, index, prior, made + more, staging, disk.entries);
      published := index + 1;
    }
    outcome, over := Success, Published(files, |files|);
    AllPublished(disk.entries, files, prior, created.Dirs(), staging);
    disk.RemoveTree(staging);
  }

  // ---------- the whole publication ----------

  lemma NothingWritten(prior: Entries)
    ensures After(prior, map[], Needed(prior, {})) == prior
  {
    SameEntries(After(prior, map[], Needed(prior, {})), prior);
  }

  lemma {:induction false} GivenUpAtOnce(prior: Entries, made: set<Place>)
    requires WellFormed(prior) && made !! prior.Keys && WellFormed(WithDirectories(prior, made))
    ensures Swept(WithDirectories(prior, made), made) == prior
  {
    SameEntries(WithDirectories(prior, made), After(prior, map[], made));
    SweepAfter(prior, map[], made);
    NothingWritten(prior);
  }

  lemma ScratchIsNeeded(prior: Entries, scratch: Place, name: string)
    ensures MissingAt(prior, scratch) == Needed(prior, {scratch + [name]})
  {
    var staging := scratch + [name];
    forall k | 0 <= k < |staging|
      ensures staging[..k] == scratch[..k]
    {
    }
    forall d | d in MissingAt(prior, scratch)
      ensures d in Needed(prior, {staging})
    {
      assert staging[..|d|] == d;
    }
  }

  lemma {:induction false} StagingTaken(prior: Entries, made: set<Place>, scratch: Place, name: string, files: seq<StagedFile>)
    requires WellFormed(prior) && made == MissingAt(prior, scratch) && Publishable(files, scratch)
    requires scratch + [name] !in WithDirectories(prior, made)
    requires WellFormed(WithDirectories(prior, made)[scratch + [name] := Directory])
    ensures var e := WithDirectories(prior, made)[scratch + [name] := Directory];
            Running(e, prior, map[], made, scratch + [name])
    ensures Publishable(files, scratch + [name]) && Purposeful(made, {scratch + [name]})
  {
    var staging := scratch + [name];
    assert scratch <= staging;
    forall d | d in made
      ensures d < staging
    {
      assert d <= scratch;
    }
  }

  lemma {:induction false} PreparedKeepsRunning(e: Entries, e1: Entries, prior: Entries, made: set<Place>, staging: Place)
    requires Running(e, prior, map[], made, staging) && SameOutside(e1, e, staging) && WellFormed(e1)
    ensures Running(e1, prior, map[], made, staging)
  {
    assert Get(e1, staging) == Get(e, staging);
    forall p | !(staging <= p)
      ensures Get(e1, p) == Expected(prior, map[], made, p)
    {
      assert Get(e1, p) == Get(e, p);
    }
  }

  lemma {:induction false} PriorStates(e: Entries, prior: Entries, made: set<Place>, staging: Place,
                                       snapshots: seq<Snapshot>, files: seq<StagedFile>)
    requires Running(e, prior, map[], made, staging) && Faithful(snapshots, files, e) && Publishable(files, staging)
    ensures Faithful(snapshots, files, prior)
  {
    forall i | 0 <= i < |files|
      ensures Get(e, files[i].destination) == Get(prior, files[i].destination)
    {
      assert files[i] in files;
      assert Get(e, files[i].destination) == Expected(prior, map[], made, files[i].destination);
      assert snapshots[i] == Snapshot(files[i].destination, Get(e, files[i].destination));
    }
  }

  lemma {:induction false} StoppedEarly(prior: Entries, files: seq<StagedFile>, staging: Place, cause: Cause)
    requires cause in {NoScratch, Unprepared}
    ensures Ends(prior, Failed(cause), files, prior, map[], staging)
  {
    NothingWritten(prior);
  }

  lemma OwnsNothing(e: Entries)
    ensures OnlyDirectories(e, {})
  {
  }

  /** A scratch directory that could not be made leaves nothing behind. */
  lemma EarlyMade(prior: Entries, scratch: Place, made: set<Place>)
    requires WellFormed(prior) && made <= MissingAt(prior, scratch)
    ensures WellFormed(WithDirectories(prior, made)) ==> Swept(WithDirectories(prior, made), made) == prior
  {
    if WellFormed(WithDirectories(prior, made)) {
      GivenUpAtOnce(prior, made);
    }
  }

  /** A refused staging directory leaves the scratch directory behind. */
  lemma ScratchLeft(prior: Entries, files: seq<StagedFile>, scratch: Place, name: string)
    ensures Ends(WithDirectories(prior, MissingAt(prior, scratch)), Failed(NoStaging), files, prior, map[], scratch + [name])
    ensures scratch + [name] in WithDirectories(prior, MissingAt(prior, scratch)) ==> scratch + [name] in prior
  {
    ScratchIsNeeded(prior, scratch, name);
    SameEntries(WithDirectories(prior, MissingAt(prior, scratch)), After(prior, map[], MissingAt(prior, scratch)));
  }

  lemma StagingFacts(e: Entries, prior: Entries, made: set<Place>, staging: Place, files: seq<StagedFile>)
    requires Running(e, prior, map[], made, staging) && Publishable(files, staging)
    ensures Get(e, staging) == Some(Directory) && Published(files, 0) == map[] && WellFormed(e)
    ensures Distinct(files) && forall f :: f in files ==> f.destination != [] && !(staging <= f.destination)
  {
  }

  lemma LoopStarts(e: Entries, files: seq<StagedFile>, prior: Entries, made: set<Place>, staging: Place)
    requires Running(e, prior, map[], made, staging) && StagedFrom(e, files, staging, 0) && Purposeful(made, {staging})
    ensures Publishing(e, files, 0, prior, made, staging)
  {
    assert Destinations(files[..0]) + {staging} == {staging};
  }

  /** An import stops at the first operation that is refused, and each file left behind is one more. Otherwise the
      staging directory was there, or a directory stands where a file should go. */
  ghost predicate Refusals(outcome: Outcome, count: int, files: seq<StagedFile>, prior: Entries, scratch: Place, name: string) {
    count == (if outcome.Success? then 0 else 1) + LeftBehind(outcome)
    || (count == 0 && outcome == Failed(NoStaging) && scratch + [name] in prior)
    || (count == 0 && outcome == Failed(Unprepared) && exists f :: f in files && IsDirectoryAt(prior, scratch, f.destination))
  }

  /** A directory stands at `p`, or is made there for the staging directory. */
  ghost predicate IsDirectoryAt(prior: Entries, scratch: Place, p: Place) {
    Get(prior, p) == Some(Directory) || p <= scratch
  }

  lemma DirectoryInTheWay(e1: Entries, e: Entries, prior: Entries, made: set<Place>, scratch: Place, name: string,
                          files: seq<StagedFile>)
    requires Running(e, prior, map[], made, scratch + [name]) && made == MissingAt(prior, scratch)
    requires SameOutside(e1, e, scratch + [name]) && Publishable(files, scratch)
    requires exists f :: f in files && Get(e1, f.destination) == Some(Directory)
    ensures exists f :: f in files && IsDirectoryAt(prior, scratch, f.destination)
  {
    var f :| f in files && Get(e1, f.destination) == Some(Directory);
    assert !(scratch + [name] <= f.destination) by {
      assert scratch <= scratch + [name];
    }
    assert Get(e, f.destination) == Expected(prior, map[], made, f.destination);
    assert f.destination in made ==> f.destination <= scratch;
    assert IsDirectoryAt(prior, scratch, f.destination);
  }

  /** One import from the scratch directory to the report: the disk ends in the state the report stands for, and the
      import fails only when it must. */
  method Publish(disk: Disk, scratch: Place, name: string, files: seq<StagedFile>) returns (outcome: Outcome, ghost over: Entries)
    requires disk.Valid() && Publishable(files, scratch)
    modifies disk
    ensures disk.Valid() && Ends(disk.entries, outcome, files, old(disk.entries), over, scratch + [name])
    ensures Refusals(outcome, disk.refusals - old(disk.refusals), files, old(disk.entries), scratch, name)
  {
    hide Running, WellFormed, Purposeful, StagedFrom, After, Needed, Listed, PartOf, Faithful, Swept, WithDirectories,
      SameOutside, MissingAt, Publishable, OnlyDirectories;
    ghost var prior := disk.entries;
    var staging := scratch + [name];
    over := map[];
    var created := new CreatedDirectories();
    OwnsNothing(prior);
    assert created.Dirs() == {};
    var provision, made := created.Create(disk, scratch);
    assert {} + made == made;
    if !provision.Provided? {
      EarlyMade(prior, scratch, made);
      StoppedEarly(prior, files, staging, NoScratch);
      return Failed(NoScratch), map[];
    }
    var creation := disk.CreateDir(staging);
    if !creation.Made? {
      ScratchLeft(prior, files, scratch, name);
      return Failed(NoStaging), map[];
    }
    StagingTaken(prior, made, scratch, name, files);
    ghost var e := disk.entries;
    StagingFacts(e, prior, made, staging, files);
    var snapshots := Prepare(disk, files, staging);
    PreparedKeepsRunning(e, disk.entries, prior, made, staging);
    if snapshots.None? {
      if disk.refusals == old(disk.refusals) {
        DirectoryInTheWay(disk.entries, e, prior, made, scratch, name, files);
      }
      UnwindRunning(disk.entries, prior, map[], made, staging, created.Dirs());
      disk.RemoveTree(staging);
      created.Remove(disk);
      NothingWritten(prior);
      StoppedEarly(prior, files, staging, Unprepared);
      return Failed(Unprepared), map[];
    }
    PriorStates(disk.entries, prior, made, staging, snapshots.value, files);
    LoopStarts(disk.entries, files, prior, made, staging);
    outcome, over := PublishStaged(disk, files, staging, created, snapshots.value, prior);
  }

  // ---------- what the report means ----------

  /** A refused directory creation is undone exactly when no directory had been made before it. */
  lemma {:induction false} RefusedDirectoryUndoneIff(e: Entries, k: nat, files: seq<StagedFile>, prior: Entries,
                                                     over: Entries, staging: Place)
    requires Ends(e, Failed(NoParent(k)), files, prior, over, staging)
    ensures k <= |files|
    ensures e == prior <==>
            forall q, j :: q in Destinations(files[..k]) + {staging} && 0 <= j < |q| ==> q[..j] in prior
  {
    var ps := Destinations(files[..k]) + {staging};
    PublishedAt(files, k);
    assert Published(files, k).Keys + {staging} == ps;
    if forall q, j :: q in ps && 0 <= j < |q| ==> q[..j] in prior {
      assert Needed(prior, ps) == Needed(prior, {});
      NothingWritten(prior);
    } else {
      var q, j :| q in ps && 0 <= j < |q| && q[..j] !in prior;
      assert q[..j] in Needed(prior, ps);
    }
  }

  /** A refused staging directory is undone exactly when the scratch directory was there before. */
  lemma {:induction false} RefusedStagingUndoneIff(e: Entries, files: seq<StagedFile>, prior: Entries, over: Entries, staging: Place)
    requires Ends(e, Failed(NoStaging), files, prior, over, staging)
    ensures e == prior <==> forall j :: 0 <= j < |staging| ==> staging[..j] in prior
  {
    if forall j :: 0 <= j < |staging| ==> staging[..j] in prior {
      assert Needed(prior, {staging}) == Needed(prior, {});
      NothingWritten(prior);
    } else {
      var j :| 0 <= j < |staging| && staging[..j] !in prior;
      assert staging[..j] in Needed(prior, {staging});
    }
  }

  /** An import that replaced nothing, or restored it all, left everything as it was, unless a directory was refused:
      then exactly when every directory above what stood at that moment was there before. */
  lemma {:induction false} FailureUndoneIff(e: Entries, cause: Cause, files: seq<StagedFile>, prior: Entries, over: Entries,
                                            staging: Place)
    requires Ends(e, Failed(cause), files, prior, over, staging)
    ensures e == prior <==>
            match cause
            case NoParent(k) =>
              k <= |files| && forall q, j :: q in Destinations(files[..k]) + {staging} && 0 <= j < |q| ==> q[..j] in prior
            case NoStaging => forall j :: 0 <= j < |staging| ==> staging[..j] in prior
            case _ => true
  {
    match cause
    case NoParent(k) => RefusedDirectoryUndoneIff(e, k, files, prior, over, staging);
    case NoStaging => RefusedStagingUndoneIff(e, files, prior, over, staging);
    case _ => NothingWritten(prior);
  }

  /** The staging directory is refused in a scratch directory that had to be made: the scratch directory stays. */
  lemma {:induction false} RefusedStagingLeavesScratch(files: seq<StagedFile>, e: Entries)
    requires Ends(e, Failed(NoStaging), files, map[[] := Directory], map[], ["scratch", "run"])
    ensures e == map[[] := Directory, ["scratch"] := Directory]
  {
    var prior, staging := map[[] := Directory], ["scratch", "run"];
    assert staging[..1] == ["scratch"] && staging[..0] == [];
    assert ["scratch"] in Needed(prior, {staging});
    forall d | d in Needed(prior, {staging})
      ensures d == ["scratch"]
    {
      var q, k :| q in {staging} && 0 <= k < |q| && q[..k] !in prior && q[..k] == d;
      assert k == 1;
    }
    assert Needed(prior, {staging}) == {["scratch"]};
  }

  /** Two new files in two new directories. The directory of the second is refused: the first file is gone again,
      but its directory and the one made for the staging area stay. */
  lemma {:induction false} RefusedDirectoryLeavesDirectories(first: StagedFile, second: StagedFile, e: Entries)
    requires first.destination == ["a", "f"] && second.destination == ["b", "f"]
    requires Ends(e, Failed(NoParent(1)), [first, second], map[[] := Directory], map[], ["scratch", "run"])
    ensures e == map[[] := Directory, ["a"] := Directory, ["scratch"] := Directory]
  {
    var files, prior, staging := [first, second], map[[] := Directory], ["scratch", "run"];
    PublishedAt(files, 1);
    assert files[..1] == [first];
    var ps := {["a", "f"], staging};
    assert Published(files, 1).Keys + {staging} == ps;
    assert ["a", "f"][..1] == ["a"] && staging[..1] == ["scratch"];
    assert {["a"], ["scratch"]} <= Needed(prior, ps);
    forall d | d in Needed(prior, ps)
      ensures d == ["a"] || d == ["scratch"]
    {
      var q, k :| q in ps && 0 <= k < |q| && q[..k] !in prior && q[..k] == d;
      assert k == 1;
    }
    assert Needed(prior, ps) == {["a"], ["scratch"]};
  }

  /** Whatever stopped an import: places the report names hold the new file, and every other place its prior state. */
  lemma {:induction false} FailuresAreExact(e: Entries, outcome: Outcome, files: seq<StagedFile>, prior: Entries,
                                            over: Entries, staging: Place, p: Place)
    requires Ends(e, outcome, files, prior, over, staging) && !outcome.Success? && Distinct(files)
    ensures outcome.SpecRollback? && p in outcome.failures ==>
              exists f :: f in files && f.destination == p && Get(e, p) == Some(File(f.bytes, f.mode))
    ensures outcome.Failed? || p !in outcome.failures ==>
              Get(e, p) == Get(prior, p) || (Get(prior, p) == None && Get(e, p) == Some(Directory))
  {
    assert files[..|files|] == files;
    var needed := Needed(prior, Standing(outcome, files, over, staging));
    hide Needed, Standing, Distinct, Published, Listed;
    PublishedAt(files, |files|);
    assert Get(e, p) == Expected(prior, over, needed, p);
    if p in over {
      var f :| f in files && f.destination == p;
      var i :| 0 <= i < |files| && files[i] == f;
      assert over[p] == NewEntry(files[i]) == File(f.bytes, f.mode);
    }
  }

  /** After a success every destination holds its new file and the rest is as before, but for directories. */
  lemma {:induction false} SuccessIsComplete(e: Entries, files: seq<StagedFile>, prior: Entries, over: Entries, staging: Place)
    requires Ends(e, Success, files, prior, over, staging) && Distinct(files)
    ensures forall i :: 0 <= i < |files| ==> Get(e, files[i].destination) == Some(File(files[i].bytes, files[i].mode))
    ensures forall p :: p !in Destinations(files) ==>
              Get(e, p) == Get(prior, p) || (Get(prior, p) == None && Get(e, p) == Some(Directory))
  {
    PublishedAt(files, |files|);
    assert files[..|files|] == files;
    forall i | 0 <= i < |files|
      ensures Get(e, files[i].destination) == Some(NewEntry(files[i]))
    {
      assert files[i].destination in Destinations(files);
    }
  }
}
