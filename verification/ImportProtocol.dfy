/**
 * Several importers of spec_import.rs over one file system, any step of any of them at any time. Every
 * step is one file operation: creating the lock file, capturing one prior state, one rename, one
 * restoration, removing the lock file. Renames and restorations may be refused at any point, and an
 * importer may die at any point.
 */
module ImportProtocol {
  import opened Json
  import opened FileSystem
  import opened SpecImport

  /** Where an importer is; `over` is what it still has written over the state it found. */
  datatype Phase =
    | Idle
    | Capturing(snapshots: seq<Option<Entry>>)
    | Renaming(snapshots: seq<Option<Entry>>, published: nat)
    | Restoring(snapshots: seq<Option<Entry>>, published: nat, restored: nat, over: Entries)
    | Leaving(success: bool, over: Entries)
    | Finished(success: bool)
    | Dead

  datatype Importer = Importer(files: seq<StagedFile>, phase: Phase)

  /**
   * `initial`, `log`, `lost` and `base` are history: the first file system, the successful imports in
   * order, the destinations that rollbacks reported as not restored, and the files when the lock was
   * last free.
   */
  datatype State = State(
    entries: Entries, lock: Option<nat>, importers: map<nat, Importer>,
    initial: Entries, log: seq<seq<StagedFile>>, lost: set<Place>, base: Entries)

  datatype Step =
    | Acquire | Contend | Capture | Unprepared | Begin | Rename | RenameRefused | Restore | RestoreRefused
    | RolledBack | Commit | Release | Die | Again(next: seq<StagedFile>)

  ghost predicate Init(s: State) {
    && s.lock.None? && s.log == [] && s.lost == {} && s.base == s.entries && s.initial == s.entries
    && forall i :: i in s.importers ==> s.importers[i].phase.Idle? && Distinct(s.importers[i].files)
  }

  function Put(e: Entries, p: Place, v: Option<Entry>): Entries {
    if v.Some? then e[p := v.value] else e - {p}
  }

  function Move(s: State, i: nat, phase: Phase): State
    requires i in s.importers
  {
    s.(importers := s.importers[i := s.importers[i].(phase := phase)])
  }

  /** Whether importer `i` can take `step`, which depends on nothing but its own phase and the lock file. */
  ghost predicate Enabled(s: State, i: nat, step: Step) {
    i in s.importers &&
    var me := s.importers[i];
    match step
    case Acquire => me.phase.Idle? && s.lock.None?
    case Contend => me.phase.Idle? && s.lock.Some?
    case Capture => me.phase.Capturing? && |me.phase.snapshots| < |me.files|
    case Unprepared => me.phase.Capturing?
    case Begin => me.phase.Capturing? && |me.phase.snapshots| == |me.files|
    case Rename => me.phase.Renaming? && me.phase.published < |me.files|
    case RenameRefused => me.phase.Renaming? && me.phase.published < |me.files|
    case Restore => me.phase.Restoring? && me.phase.restored < me.phase.published <= |me.files| == |me.phase.snapshots|
    case RestoreRefused => me.phase.Restoring? && me.phase.restored < me.phase.published <= |me.files| == |me.phase.snapshots|
    case RolledBack => me.phase.Restoring? && me.phase.restored == me.phase.published
    case Commit => me.phase.Renaming? && me.phase.published == |me.files|
    case Release => me.phase.Leaving?
    case Die => true
    case Again(next) => me.phase.Finished? && Distinct(next)
  }

  ghost function Next(s: State, i: nat, step: Step): State
    requires Enabled(s, i, step)
  {
    var me := s.importers[i];
    match step
    case Acquire => Move(s, i, Capturing([])).(lock := Some(i))
    case Contend => Move(s, i, Finished(false))
    case Capture =>
      Move(s, i, Capturing(me.phase.snapshots + [Get(s.entries, me.files[|me.phase.snapshots|].destination)]))
    case Unprepared => Move(s, i, Leaving(false, map[]))
    case Begin => Move(s, i, Renaming(me.phase.snapshots, 0))
    case Rename =>
      var f := me.files[me.phase.published];
      Move(s, i, Renaming(me.phase.snapshots, me.phase.published + 1)).(entries := s.entries[f.destination := NewEntry(f)])
    case RenameRefused =>
      Move(s, i, Restoring(me.phase.snapshots, me.phase.published, 0,
                           if me.phase.published <= |me.files| then Published(me.files, me.phase.published) else map[]))
    case Restore =>
      var p := me.files[me.phase.restored].destination;
      Move(s, i, Restoring(me.phase.snapshots, me.phase.published, me.phase.restored + 1, me.phase.over - {p}))
        .(entries := Put(s.entries, p, me.phase.snapshots[me.phase.restored]))
    case RestoreRefused =>
      Move(s, i, Restoring(me.phase.snapshots, me.phase.published, me.phase.restored + 1, me.phase.over))
        .(lost := s.lost + {me.files[me.phase.restored].destination})
    case RolledBack => Move(s, i, Leaving(false, me.phase.over))
    case Commit => Move(s, i, Leaving(true, Published(me.files, |me.files|)))
    case Release =>
      Move(s, i, Finished(me.phase.success)).(
        lock := None, base := s.entries,
        log := if me.phase.success then s.log + [me.files] else s.log,
        lost := if me.phase.success then s.lost - Destinations(me.files) else s.lost)
    case Die => Move(s, i, Dead)
    case Again(next) => s.(importers := s.importers[i := Importer(next, Idle)])
  }

  /** The successful imports, one after another. */
  ghost function Replayed(initial: Entries, log: seq<seq<StagedFile>>): Entries {
    if log == [] then initial
    else
      var last := log[|log| - 1];
      Replayed(initial, log[..|log| - 1]) + Published(last, |last|)
  }

  // ---------- what every step keeps ----------

  ghost predicate Overlays(e: Entries, base: Entries, over: Entries) {
    forall p :: Get(e, p) == if p in over then Some(over[p]) else Get(base, p)
  }

  ghost predicate Captured(snapshots: seq<Option<Entry>>, files: seq<StagedFile>, base: Entries) {
    |snapshots| <= |files| &&
    forall k :: 0 <= k < |snapshots| ==> snapshots[k] == Get(base, files[k].destination)
  }

  /** What the holder of the lock knows and has done. */
  ghost predicate Holding(me: Importer, e: Entries, base: Entries, lost: set<Place>) {
    match me.phase
    case Capturing(snapshots) => e == base && Captured(snapshots, me.files, base)
    case Renaming(snapshots, k) =>
      |snapshots| == |me.files| && Captured(snapshots, me.files, base) && k <= |me.files| &&
      Overlays(e, base, Published(me.files, k))
    case Restoring(snapshots, k, r, over) =>
      && |snapshots| == |me.files| && Captured(snapshots, me.files, base) && r <= k <= |me.files|
      && Overlays(e, base, over)
      && (forall j :: r <= j < k ==> me.files[j].destination in over)
      && (forall p :: p in over && p !in lost ==> exists j :: r <= j < k && me.files[j].destination == p)
    case Leaving(success, over) =>
      Overlays(e, base, over) &&
      if success then over == Published(me.files, |me.files|) else over.Keys <= lost
    case _ => true
  }

  predicate Inside(phase: Phase) {
    phase.Capturing? || phase.Renaming? || phase.Restoring? || phase.Leaving?
  }

  ghost predicate Inv(s: State) {
    && (forall i :: i in s.importers ==> Distinct(s.importers[i].files))
    && (forall j :: 0 <= j < |s.log| ==> Distinct(s.log[j]))
    // only the one whose lock file it is has begun and not finished
    && (forall i :: i in s.importers && Inside(s.importers[i].phase) ==> s.lock == Some(i))
    && (s.lock.None? ==> s.entries == s.base)
    && (s.lock.Some? ==>
          && s.lock.value in s.importers
          && (Inside(s.importers[s.lock.value].phase) || s.importers[s.lock.value].phase.Dead?)
          && Holding(s.importers[s.lock.value], s.entries, s.base, s.lost))
    && (forall p :: p !in s.lost ==> Get(s.base, p) == Get(Replayed(s.initial, s.log), p))
  }

  lemma PublishedUpTo(files: seq<StagedFile>, k: nat)
    requires k <= |files| && Distinct(files)
    ensures forall p :: p in Published(files, k) <==> exists j :: 0 <= j < k && files[j].destination == p
    ensures forall j :: 0 <= j < k ==> files[j].destination in Published(files, k)
  {
    PublishedAt(files, k);
    forall p
      ensures p in Published(files, k) <==> exists j :: 0 <= j < k && files[j].destination == p
    {
      if p in Published(files, k) {
        var f :| f in files[..k] && f.destination == p;
        var j :| 0 <= j < k && files[..k][j] == f;
        assert files[j].destination == p;
      }
      if j :| 0 <= j < k && files[j].destination == p {
        assert files[..k][j] == files[j];
      }
    }
  }

  lemma {:induction false} HolderMoves(s: State, i: nat, step: Step)
    requires Enabled(s, i, step) && Distinct(s.importers[i].files)
    requires step.Capture? || step.Unprepared? || step.Begin? || step.Rename? || step.RolledBack? || step.Commit?
    requires Holding(s.importers[i], s.entries, s.base, s.lost)
    ensures var t := Next(s, i, step); Holding(t.importers[i], t.entries, t.base, t.lost)
  {
    if step.Rename? {
      hide Enabled;
    }
  }

  lemma {:induction false} HolderRestores(s: State, i: nat, step: Step)
    requires Enabled(s, i, step) && Distinct(s.importers[i].files)
    requires step.RenameRefused? || step.Restore? || step.RestoreRefused?
    requires Holding(s.importers[i], s.entries, s.base, s.lost)
    ensures var t := Next(s, i, step); Holding(t.importers[i], t.entries, t.base, t.lost)
  {
    var me := s.importers[i];
    if step.RenameRefused? {
      PublishedUpTo(me.files, me.phase.published);
    } else {
      var d := me.files[me.phase.restored].destination;
      assert me.phase.snapshots[me.phase.restored] == Get(s.base, d);
      hide Published, Replayed;
    }
  }

  lemma {:induction false} ReleasedLog(s: State, i: nat, p: Place)
    requires Inv(s) && Enabled(s, i, Release) && p !in Next(s, i, Release).lost
    ensures var t := Next(s, i, Release); Get(t.base, p) == Get(Replayed(t.initial, t.log), p)
  {
    var me := s.importers[i];
    var n := |me.files|;
    PublishedAt(me.files, n);
    assert me.files[..n] == me.files;
    assert Get(s.entries, p) == if p in me.phase.over then Some(me.phase.over[p]) else Get(s.base, p);
    assert (s.log + [me.files])[..|s.log|] == s.log;
    hide Published, Distinct;
  }

  lemma {:induction false} ReleaseKeeps(s: State, i: nat)
    requires Inv(s) && Enabled(s, i, Release)
    ensures Inv(Next(s, i, Release))
  {
    var t := Next(s, i, Release);
    forall p | p !in t.lost
      ensures Get(t.base, p) == Get(Replayed(t.initial, t.log), p)
    {
      ReleasedLog(s, i, p);
    }
    hide Holding, Published, Replayed, Distinct;
  }

  lemma {:induction false} WorkKeeps(s: State, i: nat, step: Step)
    requires Inv(s) && Enabled(s, i, step)
    requires step.Capture? || step.Unprepared? || step.Begin? || step.Rename? || step.RolledBack? || step.Commit?
    ensures Inv(Next(s, i, step))
  {
    HolderMoves(s, i, step);
    hide Holding, Published, Replayed, Distinct, Enabled;
    assert i in s.importers && Inside(s.importers[i].phase);
  }

  lemma {:induction false} UndoKeeps(s: State, i: nat, step: Step)
    requires Inv(s) && Enabled(s, i, step)
    requires step.RenameRefused? || step.Restore? || step.RestoreRefused?
    ensures Inv(Next(s, i, step))
  {
    HolderRestores(s, i, step);
    hide Holding, Published, Replayed, Distinct, Enabled;
    assert i in s.importers && Inside(s.importers[i].phase);
  }

  lemma {:induction false} AcquireKeeps(s: State, i: nat)
    requires Inv(s) && Enabled(s, i, Acquire)
    ensures Inv(Next(s, i, Acquire))
  {
    hide Published, Replayed, Distinct;
  }

  lemma {:induction false} DieKeeps(s: State, i: nat)
    requires Inv(s) && Enabled(s, i, Die)
    ensures Inv(Next(s, i, Die))
  {
    hide Published, Replayed, Distinct, Overlays, Captured;
  }

  /** The one who holds the lock does not see what an importer outside does. */
  lemma {:induction false} OutsideKeeps(s: State, i: nat, step: Step)
    requires Inv(s) && Enabled(s, i, step) && (step.Contend? || step.Again?)
    ensures Inv(Next(s, i, step))
  {
    hide Published, Replayed, Holding, Distinct;
  }

  /** No step of any importer breaks the invariant. */
  lemma {:induction false} Kept(s: State, i: nat, step: Step)
    requires Inv(s) && Enabled(s, i, step)
    ensures Inv(Next(s, i, step))
  {
    hide Inv, Enabled, Next;
    if step.Release? {
      ReleaseKeeps(s, i);
    } else if step.Acquire? {
      AcquireKeeps(s, i);
    } else if step.Die? {
      DieKeeps(s, i);
    } else if step.Contend? || step.Again? {
      OutsideKeeps(s, i, step);
    } else if step.RenameRefused? || step.Restore? || step.RestoreRefused? {
      UndoKeeps(s, i, step);
    } else {
      WorkKeeps(s, i, step);
    }
  }

  // ---------- whole runs ----------

  /** A run: each state comes from the one before by some step of some importer. */
  ghost predicate IsRun(run: seq<State>) {
    && run != [] && Init(run[0])
    && forall k :: 0 <= k < |run| - 1 ==> Follows(run[k], run[k + 1])
  }

  ghost predicate Follows(s: State, t: State) {
    exists i, step :: Enabled(s, i, step) && t == Next(s, i, step)
  }

  lemma {:induction false} RunKeeps(run: seq<State>)
    requires IsRun(run)
    ensures Inv(run[|run| - 1]) && run[|run| - 1].initial == run[0].entries
    decreases |run|
  {
    hide Enabled, Inv, Init, Next;
    if |run| == 1 {
      InitKeeps(run[0]);
    } else {
      RunKeeps(run[..|run| - 1]);
      assert Follows(run[|run| - 2], run[|run| - 1]);
      var i, step :| Enabled(run[|run| - 2], i, step) && run[|run| - 1] == Next(run[|run| - 2], i, step);
      Kept(run[|run| - 2], i, step);
      NextStart(run[|run| - 2], i, step);
    }
  }

  lemma NextStart(s: State, i: nat, step: Step)
    requires Enabled(s, i, step)
    ensures Next(s, i, step).initial == s.initial
  {
  }

  lemma InitKeeps(s: State)
    requires Init(s)
    ensures Inv(s) && s.initial == s.entries
  {
  }

  /** What a place holds after the imports in `log`: the file of the latest that wrote it, or its first state. */
  ghost predicate LatestCommit(initial: Entries, log: seq<seq<StagedFile>>, p: Place, v: Option<Entry>) {
    || ((forall j :: 0 <= j < |log| ==> p !in Destinations(log[j])) && v == Get(initial, p))
    || exists j, f :: 0 <= j < |log| && f in log[j] && f.destination == p && v == Some(File(f.bytes, f.mode)) &&
                      forall k :: j < k < |log| ==> p !in Destinations(log[k])
  }

  lemma {:induction false} ReplayedIsLatest(initial: Entries, log: seq<seq<StagedFile>>, p: Place)
    requires forall j :: 0 <= j < |log| ==> Distinct(log[j])
    ensures LatestCommit(initial, log, p, Get(Replayed(initial, log), p))
  {
    if log != [] {
      var n := |log| - 1;
      var last := log[n];
      ReplayedIsLatest(initial, log[..n], p);
      PublishedAt(last, |last|);
      assert last[..|last|] == last;
      if p in Destinations(last) {
        var f :| f in last && f.destination == p;
        var i :| 0 <= i < |last| && last[i] == f;
        assert Get(Replayed(initial, log), p) == Some(NewEntry(last[i]));
        assert last[i] in log[n];
      } else {
        OneMoreElsewhere(initial, log, p, Get(Replayed(initial, log[..n]), p));
      }
    }
  }

  lemma OneMoreElsewhere(initial: Entries, log: seq<seq<StagedFile>>, p: Place, v: Option<Entry>)
    requires log != [] && p !in Destinations(log[|log| - 1]) && LatestCommit(initial, log[..|log| - 1], p, v)
    ensures LatestCommit(initial, log, p, v)
  {
    var n := |log| - 1;
    if !((forall j :: 0 <= j < n ==> p !in Destinations(log[..n][j])) && v == Get(initial, p)) {
      var j, f :| 0 <= j < n && f in log[..n][j] && f.destination == p && v == Some(File(f.bytes, f.mode)) &&
                  forall k :: j < k < n ==> p !in Destinations(log[..n][k]);
      assert f in log[j];
      forall k | j < k < |log|
        ensures p !in Destinations(log[k])
      {
        assert k < n ==> log[..n][k] == log[k];
      }
    } else {
      forall j | 0 <= j < |log|
        ensures p !in Destinations(log[j])
      {
        assert j < n ==> log[..n][j] == log[j];
      }
    }
  }

  // ---------- safety over whole runs ----------

  /** Of all importers at most one is between taking the lock and giving it back. */
  lemma OneAtATime(run: seq<State>, i: nat, j: nat)
    requires IsRun(run)
    requires var s := run[|run| - 1];
             i in s.importers && j in s.importers && Inside(s.importers[i].phase) && Inside(s.importers[j].phase)
    ensures i == j
  {
    RunKeeps(run);
  }

  /**
   * Whenever no one holds the lock, every destination not reported as lost holds the bytes of the latest
   * successful import that wrote it, or its initial state.
   */
  lemma UnlockedMeansCommitted(run: seq<State>, p: Place)
    requires IsRun(run)
    requires var s := run[|run| - 1]; s.lock.None? && p !in s.lost
    ensures var s := run[|run| - 1]; LatestCommit(run[0].entries, s.log, p, Get(s.entries, p))
  {
    RunKeeps(run);
    var s := run[|run| - 1];
    ReplayedIsLatest(s.initial, s.log, p);
  }

  /** No rollback undoes another importer's commit: what it puts back is the latest commit of that place. */
  lemma RollbackKeepsCommits(run: seq<State>, i: nat)
    requires IsRun(run)
    requires var s := run[|run| - 1];
             && i in s.importers && s.importers[i].phase.Restoring?
             && s.importers[i].phase.restored < s.importers[i].phase.published
    ensures var s := run[|run| - 1];
            var me := s.importers[i];
            var r := me.phase.restored;
            && r < |me.phase.snapshots| == |me.files|
            && (me.files[r].destination !in s.lost ==>
                  LatestCommit(run[0].entries, s.log, me.files[r].destination, me.phase.snapshots[r]))
  {
    RunKeeps(run);
    var s := run[|run| - 1];
    var me := s.importers[i];
    assert Inside(me.phase);
    var r := me.phase.restored;
    assert me.phase.snapshots[r] == Get(s.base, me.files[r].destination);
    ReplayedIsLatest(s.initial, s.log, me.files[r].destination);
  }
}
