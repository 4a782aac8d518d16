/**
 * The bounded queue of tidas-runtime and the copy loop of tidas-conversion that fills and drains it on
 * one thread.
 */
module CopyTree {
  import opened Json
  import MemoryBudget

  datatype FileJob = FileJob(source: string, target: string)

  /** What a walk of the source tree yields, already classified by the loop's guards. */
  datatype WalkEntry =
    | Unreadable
    | Link
    | Root
    | Folder(target: string)
    | Special
    | Plain(job: FileJob, sidecar: bool, orphan: bool)

  datatype Stop = Cancelled | OverBudget | BadEntry | NotConverted(job: FileJob)

  const PATH_JOB_OVERHEAD: nat := 256

  function Estimate(job: FileJob): nat {
    |job.source| + |job.target| + PATH_JOB_OVERHEAD
  }

  /** Whether anyone has asked to stop; once asked, that stays. */
  class Cancellation {
    var asked: bool

    constructor ()
      ensures !asked
    {
      asked := false;
    }

    method Check() returns (stop: bool)
      modifies this
      ensures stop == asked && (old(asked) ==> asked)
    {
      if * {
        asked := true;
      }
      stop := asked;
    }
  }

  /** A budget as one thread sees it; other holders may own part of `used`. */
  class Budget {
    const limit: nat
    var used: nat

    constructor (limit: nat)
      ensures this.limit == limit && used == 0
    {
      this.limit := limit;
      used := 0;
    }

    method Reserve(bytes: nat) returns (ok: bool)
      modifies this
      ensures ok <==> old(used) + bytes <= limit
      ensures used == if ok then old(used) + bytes else old(used)
    {
      ok := used + bytes <= limit;
      if ok {
        used := used + bytes;
      }
    }

    method Release(bytes: nat)
      requires bytes <= used
      modifies this
      ensures used == old(used) - bytes
    {
      used := used - bytes;
    }
  }

  ghost function Reserved(messages: seq<(FileJob, nat)>): nat {
    MemoryBudget.Sum(seq(|messages|, k requires 0 <= k < |messages| => messages[k].1))
  }

  ghost function Waiting(messages: seq<(FileJob, nat)>): seq<FileJob> {
    seq(|messages|, k requires 0 <= k < |messages| => messages[k].0)
  }

  lemma ReservedPush(messages: seq<(FileJob, nat)>, m: (FileJob, nat))
    ensures Reserved(messages + [m]) == Reserved(messages) + m.1
    ensures Waiting(messages + [m]) == Waiting(messages) + [m.0]
  {
    var bytes := seq(|messages|, k requires 0 <= k < |messages| => messages[k].1);
    var more := messages + [m];
    assert seq(|more|, k requires 0 <= k < |more| => more[k].1) == bytes + [m.1];
    MemoryBudget.SumAppend(bytes, [m.1]);
    assert MemoryBudget.Sum([m.1]) == m.1;
  }

  lemma ReservedPop(messages: seq<(FileJob, nat)>)
    requires messages != []
    ensures Reserved(messages) == messages[0].1 + Reserved(messages[1..])
    ensures Waiting(messages) == [messages[0].0] + Waiting(messages[1..])
  {
    var bytes := seq(|messages|, k requires 0 <= k < |messages| => messages[k].1);
    var rest := messages[1..];
    assert seq(|rest|, k requires 0 <= k < |rest| => rest[k].1) == bytes[1..];
  }

  /** The memory that jobs take while they wait: the length of their two paths and an overhead for each. */
  function Total(jobs: seq<FileJob>): nat {
    if jobs == [] then 0
    else
      var last := jobs[|jobs| - 1];
      Total(jobs[..|jobs| - 1]) + (|last.source| + |last.target| + 256)
  }

  /** Every waiting job holds its own memory. */
  ghost predicate Charged(messages: seq<(FileJob, nat)>) {
    forall m :: m in messages ==> m.1 == Estimate(m.0)
  }

  lemma {:induction false} ChargedTotal(messages: seq<(FileJob, nat)>)
    requires Charged(messages)
    ensures Reserved(messages) == Total(Waiting(messages))
  {
    if messages == [] {
      assert Waiting(messages) == [];
    } else {
      var rest, last := messages[..|messages| - 1], messages[|messages| - 1];
      assert messages == rest + [last];
      ReservedPush(rest, last);
      ChargedTotal(rest);
      assert Waiting(messages)[..|rest|] == Waiting(rest);
      assert last in messages;
    }
  }

  class BoundedQueue {
    const capacity: nat
    const budget: Budget
    var messages: seq<(FileJob, nat)>

    ghost predicate Valid()
      reads this, budget
    {
      |messages| <= capacity && Reserved(messages) <= budget.used
    }

    constructor (capacity: nat, budget: Budget)
      ensures Valid() && messages == [] && this.capacity == capacity && this.budget == budget
    {
      this.capacity := capacity;
      this.budget := budget;
      messages := [];
    }

    /** Sends into a queue with room, so without waiting. A message that is not sent releases its memory. */
    method Send(job: FileJob, bytes: nat, cancellation: Cancellation) returns (r: Result<bool, Stop>)
      requires Valid() && |messages| < capacity
      modifies this, budget, cancellation
      ensures Valid()
      ensures r.Ok? ==> messages == old(messages) + [(job, bytes)] && budget.used == old(budget.used) + bytes
      ensures r.Err? ==> messages == old(messages) && budget.used == old(budget.used) && (r.error.Cancelled? || r.error.OverBudget?)
      ensures r == Err(OverBudget) ==> old(budget.used) + bytes > budget.limit
      ensures r == Err(Cancelled) <==> cancellation.asked
    {
      var cancelled := cancellation.Check();
      if cancelled {
        return Err(Cancelled);
      }
      var ok := budget.Reserve(bytes);
      if !ok {
        return Err(OverBudget);
      }
      cancelled := cancellation.Check();
      if cancelled {
        budget.Release(bytes);
        return Err(Cancelled);
      }
      ReservedPush(messages, (job, bytes));
      messages := messages + [(job, bytes)];
      r := Ok(true);
    }

    /** Receives the oldest message of a queue that has one, and with it the duty to release its memory. */
    method Recv(cancellation: Cancellation) returns (r: Result<(FileJob, nat), Stop>)
      requires Valid() && messages != []
      modifies this, cancellation
      ensures r.Ok? ==> [r.value] + messages == old(messages)
      ensures r.Err? ==> messages == old(messages) && r.error.Cancelled?
      ensures r.Err? <==> cancellation.asked
    {
      var cancelled := cancellation.Check();
      if cancelled {
        return Err(Cancelled);
      }
      r := Ok(messages[0]);
      messages := messages[1..];
    }

    /** Dropping both ends drops every message still queued. */
    method Close()
      requires Valid()
      modifies this, budget
      ensures messages == [] && budget.used == old(budget.used) - Reserved(old(messages))
    {
      ghost var total := budget.used - Reserved(messages);
      while messages != []
        invariant Reserved(messages) <= budget.used && budget.used - Reserved(messages) == total
        decreases |messages|
      {
        ReservedPop(messages);
        budget.Release(messages[0].1);
        messages := messages[1..];
      }
    }
  }

  // ---------- what the loop is to do ----------

  /** An unreadable entry or a link stops the walk; so does, on the way back, a sidecar without its dataset. */
  predicate Stops(e: WalkEntry, toTidas: bool) {
    e.Unreadable? || e.Link? || (e.Plain? && toTidas && e.sidecar && e.orphan)
  }

  predicate IsJob(e: WalkEntry, toTidas: bool) {
    e.Plain? && !(toTidas && e.sidecar)
  }

  /** `places` are, in walk order, the plain files, without the sidecars on the way back. */
  ghost predicate FilePlaces(entries: seq<WalkEntry>, toTidas: bool, places: seq<nat>) {
    && (forall n :: 0 <= n < |places| ==>
          places[n] < |entries| && entries[places[n]].Plain? && (toTidas ==> !entries[places[n]].sidecar))
    && (forall n, k :: 0 <= n < k < |places| ==> places[n] < places[k])
    && (forall i :: 0 <= i < |entries| && entries[i].Plain? && (toTidas ==> !entries[i].sidecar) ==> i in places)
  }

  ghost predicate JobsAt(entries: seq<WalkEntry>, places: seq<nat>, jobs: seq<FileJob>) {
    |jobs| == |places| &&
    forall n :: 0 <= n < |places| ==> places[n] < |entries| && entries[places[n]].Plain? && jobs[n] == entries[places[n]].job
  }

  lemma {:induction false} JobPlaces(entries: seq<WalkEntry>, toTidas: bool) returns (places: seq<nat>)
    ensures FilePlaces(entries, toTidas, places) && JobsAt(entries, places, Jobs(entries, toTidas))
  {
    places := [];
    if entries != [] {
      var rest, e := entries[..|entries| - 1], entries[|entries| - 1];
      var before := JobPlaces(rest, toTidas);
      places := before + if IsJob(e, toTidas) then [|rest|] else [];
      PlacesNext(entries, toTidas, before);
      JobsNext(entries, before, if IsJob(e, toTidas) then [|rest|] else [], Jobs(rest, toTidas));
      hide FilePlaces, JobsAt;
    }
  }

  lemma PlacesNext(entries: seq<WalkEntry>, toTidas: bool, before: seq<nat>)
    requires entries != [] && FilePlaces(entries[..|entries| - 1], toTidas, before)
    ensures FilePlaces(entries, toTidas, before + if IsJob(entries[|entries| - 1], toTidas) then [|entries| - 1] else [])
  {
    var rest, e := entries[..|entries| - 1], entries[|entries| - 1];
    var places := before + if IsJob(e, toTidas) then [|rest|] else [];
    forall n | 0 <= n < |places|
      ensures places[n] < |entries| && entries[places[n]].Plain? && (toTidas ==> !entries[places[n]].sidecar)
    {
      assert n < |before| ==> places[n] == before[n] && entries[before[n]] == rest[before[n]];
    }
    forall i | 0 <= i < |entries| && entries[i].Plain? && (toTidas ==> !entries[i].sidecar)
      ensures i in places
    {
      assert i < |rest| ==> rest[i] == entries[i] && i in before;
      assert i == |rest| ==> places[|before|] == i;
    }
    forall n, k | 0 <= n < k < |places|
      ensures places[n] < places[k]
    {
      assert k == |before| ==> places[k] == |rest| && places[n] == before[n] < |rest|;
    }
  }

  lemma JobsNext(entries: seq<WalkEntry>, before: seq<nat>, last: seq<nat>, jobs: seq<FileJob>)
    requires entries != [] && JobsAt(entries[..|entries| - 1], before, jobs)
    requires last == [] || (last == [|entries| - 1] && entries[|entries| - 1].Plain?)
    ensures JobsAt(entries, before + last, jobs + if last == [] then [] else [entries[|entries| - 1].job])
  {
    var rest := entries[..|entries| - 1];
    assert forall n :: 0 <= n < |before| ==> entries[before[n]] == rest[before[n]];
  }

  /** Exactly these files are processed, each once and in walk order. */
  lemma {:induction false} JobsAreFiles(entries: seq<WalkEntry>, toTidas: bool)
    ensures exists places :: FilePlaces(entries, toTidas, places) && JobsAt(entries, places, Jobs(entries, toTidas))
  {
    var places := JobPlaces(entries, toTidas);
    hide FilePlaces, JobsAt, Jobs;
  }

  /** The files to process, in walk order: all, or all but sidecars on the way back. */
  function Jobs(entries: seq<WalkEntry>, toTidas: bool): seq<FileJob> {
    if entries == [] then []
    else
      var e := entries[|entries| - 1];
      Jobs(entries[..|entries| - 1], toTidas) + if IsJob(e, toTidas) then [e.job] else []
  }

  /** The outcome of processing `jobs` one after another, each step seeing what the earlier ones did. */
  function Processed<S>(step: (S, FileJob) -> Option<S>, s: S, jobs: seq<FileJob>): Option<S> {
    if jobs == [] then Some(s)
    else
      match Processed(step, s, jobs[..|jobs| - 1])
      case None => None
      case Some(t) => step(t, jobs[|jobs| - 1])
  }

  lemma {:induction false} JobsPrefix(entries: seq<WalkEntry>, toTidas: bool, i: nat)
    requires i <= |entries|
    ensures Jobs(entries[..i], toTidas) <= Jobs(entries, toTidas)
  {
    if i < |entries| {
      JobsPrefix(entries[..|entries| - 1], toTidas, i);
      assert entries[..|entries| - 1][..i] == entries[..i];
    } else {
      assert entries[..i] == entries;
    }
  }

  /** What the loop has done: the first `done` jobs are processed and the others seen so far wait in order. */
  ghost predicate Underway<S>(step: (S, FileJob) -> Option<S>, initial: S, jobs: seq<FileJob>, done: nat, state: S,
                              messages: seq<(FileJob, nat)>) {
    done <= |jobs| && Processed(step, initial, jobs[..done]) == Some(state) && Waiting(messages) == jobs[done..]
  }

  lemma {:induction false} OneProcessed<S>(step: (S, FileJob) -> Option<S>, initial: S, jobs: seq<FileJob>, done: nat,
                                           state: S, messages: seq<(FileJob, nat)>)
    requires Underway(step, initial, jobs, done, state, messages) && messages != []
    ensures done < |jobs| && messages[0].0 == jobs[done]
    ensures match step(state, messages[0].0)
            case None => true
            case Some(next) => Underway(step, initial, jobs, done + 1, next, messages[1..])
  {
    ReservedPop(messages);
    assert jobs[..done + 1][..done] == jobs[..done];
    assert Waiting(messages)[0] == jobs[done];
    assert jobs[done..][1..] == jobs[done + 1..];
    assert Waiting(messages[1..]) == Waiting(messages)[1..];
  }

  lemma {:induction false} OneQueued<S>(step: (S, FileJob) -> Option<S>, initial: S, jobs: seq<FileJob>, done: nat,
                                        state: S, messages: seq<(FileJob, nat)>, m: (FileJob, nat))
    requires Underway(step, initial, jobs, done, state, messages)
    ensures Underway(step, initial, jobs + [m.0], done, state, messages + [m])
  {
    ReservedPush(messages, m);
    assert (jobs + [m.0])[..done] == jobs[..done];
  }

  /** Takes the oldest queued file, releases its memory and processes it. */
  method ProcessNextFile<S>(queue: BoundedQueue, cancellation: Cancellation, step: (S, FileJob) -> Option<S>, state: S,
                            ghost initial: S, ghost jobs: seq<FileJob>, ghost done: nat) returns (r: Result<S, Stop>)
    requires queue.Valid() && queue.messages != []
    requires Underway(step, initial, jobs, done, state, queue.messages)
    modifies queue, queue.budget, cancellation
    ensures queue.Valid()
    ensures r == Err(Cancelled) <==> cancellation.asked
    ensures queue.budget.used - Reserved(queue.messages) == old(queue.budget.used - Reserved(queue.messages))
    ensures r.Ok? ==> |queue.messages| == |old(queue.messages)| - 1
    ensures Charged(old(queue.messages)) ==> Charged(queue.messages)
    ensures r.Err? ==> !r.error.OverBudget? && !r.error.BadEntry?
    ensures r.Ok? ==> Underway(step, initial, jobs, done + 1, r.value, queue.messages)
    ensures r.Err? ==> r.error.Cancelled? || (r.error.NotConverted? && Blames(step, initial, jobs, done, r.error))
  {
    hide Reserved;
    ReservedPop(queue.messages);
    OneProcessed(step, initial, jobs, done, state, queue.messages);
    ghost var before := queue.messages;
    var received := queue.Recv(cancellation);
    if received.Err? {
      return Err(Cancelled);
    }
    assert before[1..] == queue.messages;
    queue.budget.Release(received.value.1);
    match step(state, received.value.0)
    case None => r := Err(NotConverted(received.value.0));
    case Some(next) => r := Ok(next);
  }

  /** The error names the job after the first `done`, which then failed. */
  ghost predicate Blames<S>(step: (S, FileJob) -> Option<S>, initial: S, jobs: seq<FileJob>, done: nat, error: Stop) {
    && error.NotConverted? && done < |jobs| && error.job == jobs[done]
    && Processed(step, initial, jobs[..done]).Some?
    && step(Processed(step, initial, jobs[..done]).value, error.job).None?
  }

  lemma BlamesLater<S>(step: (S, FileJob) -> Option<S>, initial: S, entries: seq<WalkEntry>, toTidas: bool, i: nat,
                       done: nat, error: Stop)
    requires i <= |entries| && Blames(step, initial, Jobs(entries[..i], toTidas), done, error)
    ensures Blames(step, initial, Jobs(entries, toTidas), done, error)
  {
    JobsPrefix(entries, toTidas, i);
    assert Jobs(entries, toTidas)[..done] == Jobs(entries[..i], toTidas)[..done];
  }

  /** Looks at one entry: sends its job and, when that fills the queue, processes the oldest one. */
  method Advance<S>(queue: BoundedQueue, queued: nat, cancellation: Cancellation, e: WalkEntry, toTidas: bool,
                    step: (S, FileJob) -> Option<S>, state: S, ghost initial: S, ghost jobs: seq<FileJob>, ghost done: nat)
    returns (r: Result<S, Stop>, left: nat, ghost now: nat)
    requires queue.Valid() && queued == |queue.messages| < queue.capacity && !Stops(e, toTidas)
    requires Underway(step, initial, jobs, done, state, queue.messages) && Charged(queue.messages)
    modifies queue, queue.budget, cancellation
    ensures queue.Valid() && Charged(queue.messages)
    ensures r == Err(Cancelled) ==> cancellation.asked
    ensures queue.budget.used - Reserved(queue.messages) == old(queue.budget.used - Reserved(queue.messages))
    ensures r == Err(OverBudget) ==>
              IsJob(e, toTidas) && old(queue.budget.used) + (|e.job.source| + |e.job.target| + 256) > queue.budget.limit
    ensures r.Ok? ==> left == |queue.messages| < queue.capacity &&
                      Underway(step, initial, jobs + if IsJob(e, toTidas) then [e.job] else [], now, r.value, queue.messages)
    ensures r.Err? ==>
              && now == done
              && (r.error.Cancelled? || r.error.OverBudget? ||
                  (IsJob(e, toTidas) && r.error.NotConverted? && Blames(step, initial, jobs + [e.job], done, r.error)))
  {
    hide Reserved, Processed, Waiting;
    now, left := done, queued;
    if IsJob(e, toTidas) {
      ghost var before := queue.messages;
      var sent := queue.Send(e.job, Estimate(e.job), cancellation);
      if sent.Err? {
        return Err(sent.error), left, done;
      }
      left := queued + 1;
      ReservedPush(before, (e.job, Estimate(e.job)));
      assert Charged(before + [(e.job, Estimate(e.job))]);
      OneQueued(step, initial, jobs, done, state, before, (e.job, Estimate(e.job)));
      if left == queue.capacity {
        r := ProcessNextFile(queue, cancellation, step, state, initial, jobs + [e.job], done);
        left, now := queued, if r.Ok? then done + 1 else done;
      } else {
        r := Ok(state);
      }
    } else {
      assert jobs + [] == jobs;
      r := Ok(state);
    }
  }

  /** At most `capacity` jobs in a row, from the first that is not processed yet, take more memory than is free. */
  ghost predicate Crowded(jobs: seq<FileJob>, done: nat, capacity: nat, used: nat, limit: nat) {
    exists n :: done < n <= |jobs| && n - done <= capacity && used + Total(jobs[done..n]) > limit
  }

  lemma CrowdedAt<S>(step: (S, FileJob) -> Option<S>, initial: S, entries: seq<WalkEntry>, toTidas: bool, i: nat, done: nat,
                     state: S, messages: seq<(FileJob, nat)>, capacity: nat, used: nat, limit: nat)
    requires i < |entries| && IsJob(entries[i], toTidas) && |messages| < capacity && Charged(messages)
    requires Underway(step, initial, Jobs(entries[..i], toTidas), done, state, messages)
    requires used + Reserved(messages) + (|entries[i].job.source| + |entries[i].job.target| + 256) > limit
    ensures Crowded(Jobs(entries, toTidas), done, capacity, used, limit)
  {
    ChargedTotal(messages);
    NextJob(entries, toTidas, i);
    JobsPrefix(entries, toTidas, i + 1);
    var before, now, jobs := Jobs(entries[..i], toTidas), Jobs(entries[..i + 1], toTidas), Jobs(entries, toTidas);
    hide Jobs, Processed;
    var n := |now|;
    assert jobs[done..n] == now[done..] == before[done..] + [entries[i].job];
    assert jobs[done..n][..n - done - 1] == Waiting(messages);
  }

  /**
   * Walks a tree and processes its files through a queue of any positive capacity. The queue is never full
   * when sent to nor empty when received from, so nothing waits; files are processed in walk order; and
   * every reservation has been released when the loop ends, whichever way it ends.
   */
  method CopyTree<S>(entries: seq<WalkEntry>, toTidas: bool, capacity: nat, budget: Budget, cancellation: Cancellation,
                     step: (S, FileJob) -> Option<S>, initial: S)
    returns (r: Result<S, Stop>, ghost done: nat)
    requires capacity > 0
    modifies budget, cancellation
    ensures budget.used == old(budget.used)
    ensures r == Err(Cancelled) ==> cancellation.asked
    ensures r.Ok? ==>
              && (forall e :: e in entries ==> !e.Unreadable? && !e.Link? && !(toTidas && e.Plain? && e.sidecar && e.orphan))
              && Processed(step, initial, Jobs(entries, toTidas)) == Some(r.value)
    ensures done <= |Jobs(entries, toTidas)| && Processed(step, initial, Jobs(entries, toTidas)[..done]).Some?
    ensures r.Err? && r.error.NotConverted? ==> Blames(step, initial, Jobs(entries, toTidas), done, r.error)
    ensures r.Err? && r.error.BadEntry? ==>
              exists e :: e in entries && (e.Unreadable? || e.Link? || (toTidas && e.Plain? && e.sidecar && e.orphan))
    ensures r.Err? && r.error.OverBudget? ==> Crowded(Jobs(entries, toTidas), done, capacity, old(budget.used), budget.limit)
  {
    hide Processed, Reserved, Waiting, Blames, Underway, Jobs, IsJob, Charged, Crowded;
    var queue := new BoundedQueue(capacity, budget);
    var state := initial;
    var queued := 0;
    ghost var used := budget.used;
    done := 0;
    assert entries[..0] == [];
    StartUnderway(step, initial, toTidas);
    for i := 0 to |entries|
      invariant queue.Valid() && queued == |queue.messages| < capacity
      invariant budget.used == used + Reserved(queue.messages)
      invariant forall k :: 0 <= k < i ==> !Stops(entries[k], toTidas)
      invariant Underway(step, initial, Jobs(entries[..i], toTidas), done, state, queue.messages) && Charged(queue.messages)
    {
      UnderwayPrefix(step, initial, entries, toTidas, i, done, state, queue.messages);
      NextJob(entries, toTidas, i);
      var cancelled := cancellation.Check();
      if cancelled {
        queue.Close();
        return Err(Cancelled), done;
      }
      if Stops(entries[i], toTidas) {
        queue.Close();
        return Err(BadEntry), done;
      }
      ghost var now;
      ghost var before := (state, queue.messages);
      var next: Result<S, Stop>;
      next, queued, now := Advance(queue, queued, cancellation, entries[i], toTidas, step, state, initial, Jobs(entries[..i], toTidas), done);
      if next.Err? {
        if next.error.NotConverted? {
          BlamesLater(step, initial, entries, toTidas, i + 1, done, next.error);
        }
        if next.error.OverBudget? {
          CrowdedAt(step, initial, entries, toTidas, i, done, before.0, before.1, capacity, used, budget.limit);
        }
        queue.Close();
        return Err(next.error), done;
      }
      state, done := next.value, now;
    }
    assert entries[..|entries|] == entries;
    while queued > 0
      invariant queue.Valid() && queued == |queue.messages| && budget.used == used + Reserved(queue.messages)
      invariant Underway(step, initial, Jobs(entries, toTidas), done, state, queue.messages)
    {
      UnderwayPrefix(step, initial, entries, toTidas, |entries|, done, state, queue.messages);
      var next := ProcessNextFile(queue, cancellation, step, state, initial, Jobs(entries, toTidas), done);
      if next.Err? {
        queue.Close();
        return Err(next.error), done;
      }
      state, done, queued := next.value, done + 1, queued - 1;
    }
    UnderwayPrefix(step, initial, entries, toTidas, |entries|, done, state, queue.messages);
    NothingWaits(step, initial, Jobs(entries, toTidas), done, state);
    r := Ok(state);
  }

  lemma NextJob(entries: seq<WalkEntry>, toTidas: bool, i: nat)
    requires i < |entries|
    ensures Jobs(entries[..i + 1], toTidas) ==
            Jobs(entries[..i], toTidas) + if IsJob(entries[i], toTidas) then [entries[i].job] else []
  {
    assert entries[..i + 1][..i] == entries[..i];
  }

  lemma StartUnderway<S>(step: (S, FileJob) -> Option<S>, initial: S, toTidas: bool)
    ensures Underway(step, initial, Jobs([], toTidas), 0, initial, []) && Reserved([]) == 0 && Charged([])
  {
  }

  lemma UnderwayPrefix<S>(step: (S, FileJob) -> Option<S>, initial: S, entries: seq<WalkEntry>, toTidas: bool, i: nat,
                          done: nat, state: S, messages: seq<(FileJob, nat)>)
    requires i <= |entries| && Underway(step, initial, Jobs(entries[..i], toTidas), done, state, messages)
    ensures var jobs := Jobs(entries, toTidas);
            && done <= |jobs| && Processed(step, initial, jobs[..done]) == Some(state)
            && (messages != [] ==> done < |jobs| && jobs[done] == messages[0].0)
  {
    JobsPrefix(entries, toTidas, i);
    var some := Jobs(entries[..i], toTidas);
    assert Jobs(entries, toTidas)[..done] == some[..done];
    if messages != [] {
      assert Waiting(messages)[0] == some[done];
    }
  }

  lemma NothingWaits<S>(step: (S, FileJob) -> Option<S>, initial: S, jobs: seq<FileJob>, done: nat, state: S)
    requires Underway(step, initial, jobs, done, state, [])
    ensures done == |jobs| && Processed(step, initial, jobs) == Some(state) && Reserved([]) == 0
  {
    assert |Waiting([])| == 0;
    assert jobs[..done] == jobs;
  }
}
