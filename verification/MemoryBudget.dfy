/**
 * The memory budget of tidas-runtime under any interleaving of threads: each step is one atomic
 * operation of one thread. The two counters are 64-bit and wrap.
 */
module MemoryBudget {
  const U64: nat := 0x1_0000_0000_0000_0000

  /** Where a thread is in `reserve`: outside, holding a value it read, or past its exchange. */
  datatype Phase =
    | Outside
    | Loaded(bytes: nat, seen: nat)
    | Swapped(bytes: nat, requested: nat)

  /** `live` are the reservations not yet dropped; `highest` is history, the largest value `used` ever had. */
  datatype State = State(limit: nat, used: nat, peak: nat, threads: seq<Phase>, live: seq<nat>, highest: nat)

  datatype Step = Load(bytes: nat) | Refuse | Swap | SwapFails | RecordPeak | Drop(which: nat) | Fork

  function Sum(xs: seq<nat>): nat {
    if xs == [] then 0 else xs[0] + Sum(xs[1..])
  }

  function Bytes(p: Phase): nat {
    if p.Swapped? then p.bytes else 0
  }

  /** Reserved by threads that have exchanged the counter but do not have their reservation yet. */
  function InFlight(ps: seq<Phase>): nat {
    if ps == [] then 0 else Bytes(ps[0]) + InFlight(ps[1..])
  }

  function Max(a: nat, b: nat): nat {
    if a < b then b else a
  }

  predicate Init(s: State) {
    s.limit < U64 && s.used == 0 && s.peak == 0 && s.live == [] && s.highest == 0 &&
    forall t :: 0 <= t < |s.threads| ==> s.threads[t].Outside?
  }

  /** The checked addition overflows, or the sum is over the limit. */
  predicate OverLimit(seen: nat, bytes: nat, limit: nat) {
    seen + bytes >= U64 || seen + bytes > limit
  }

  predicate Enabled(s: State, t: nat, step: Step) {
    t < |s.threads| &&
    match step
    case Load(bytes) => s.threads[t].Outside? && bytes < U64
    case Refuse => s.threads[t].Loaded? && OverLimit(s.threads[t].seen, s.threads[t].bytes, s.limit)
    case Swap =>
      s.threads[t].Loaded? && !OverLimit(s.threads[t].seen, s.threads[t].bytes, s.limit) && s.threads[t].seen == s.used
    case SwapFails => s.threads[t].Loaded? && !OverLimit(s.threads[t].seen, s.threads[t].bytes, s.limit)
    case RecordPeak => s.threads[t].Swapped?
    case Drop(which) => s.threads[t].Outside? && which < |s.live|
    case Fork => true
  }

  function At(s: State, t: nat, p: Phase): State
    requires t < |s.threads|
  {
    s.(threads := s.threads[t := p])
  }

  /** The weak exchange may fail although the value is the one seen; it then reports the current value. */
  function Next(s: State, t: nat, step: Step): State
    requires Enabled(s, t, step)
  {
    match step
    case Load(bytes) => At(s, t, Loaded(bytes, s.used))
    case Refuse => At(s, t, Outside)
    case Swap =>
      var requested := s.threads[t].seen + s.threads[t].bytes;
      At(s, t, Swapped(s.threads[t].bytes, requested)).(used := requested, highest := Max(s.highest, requested))
    case SwapFails => At(s, t, Loaded(s.threads[t].bytes, s.used))
    case RecordPeak =>
      At(s, t, Outside).(peak := Max(s.peak, s.threads[t].requested), live := s.live + [s.threads[t].bytes])
    case Drop(which) =>
      s.(used := (s.used - s.live[which]) % U64, live := s.live[..which] + s.live[which + 1..])
    case Fork => s.(threads := s.threads + [Outside])
  }

  /** What holds after every step. */
  ghost predicate Inv(s: State) {
    && s.used == Sum(s.live) + InFlight(s.threads)
    && s.used <= s.limit < U64
    && s.used <= s.highest <= s.limit
    && s.peak <= s.highest
    && (forall t :: 0 <= t < |s.threads| && s.threads[t].Swapped? ==> s.threads[t].requested <= s.highest)
    && (s.peak == s.highest ||
        exists t :: 0 <= t < |s.threads| && s.threads[t].Swapped? && s.threads[t].requested == s.highest)
  }

  lemma {:induction false} SumAppend(a: seq<nat>, b: seq<nat>)
    ensures Sum(a + b) == Sum(a) + Sum(b)
  {
    if a == [] {
      assert a + b == b;
    } else {
      assert (a + b)[1..] == a[1..] + b;
      SumAppend(a[1..], b);
    }
  }

  lemma {:induction false} SumWithout(xs: seq<nat>, k: nat)
    requires k < |xs|
    ensures Sum(xs) == Sum(xs[..k] + xs[k + 1..]) + xs[k]
  {
    assert xs == xs[..k] + ([xs[k]] + xs[k + 1..]);
    SumAppend(xs[..k], [xs[k]] + xs[k + 1..]);
    SumAppend([xs[k]], xs[k + 1..]);
    SumAppend(xs[..k], xs[k + 1..]);
  }

  lemma {:induction false} InFlightUpdate(ps: seq<Phase>, t: nat, p: Phase)
    requires t < |ps|
    ensures InFlight(ps[t := p]) == InFlight(ps) - Bytes(ps[t]) + Bytes(p)
  {
    if t > 0 {
      assert ps[t := p][1..] == ps[1..][t - 1 := p];
      InFlightUpdate(ps[1..], t - 1, p);
    }
  }

  lemma {:induction false} InFlightFork(ps: seq<Phase>)
    ensures InFlight(ps + [Outside]) == InFlight(ps)
  {
    if ps != [] {
      assert (ps + [Outside])[1..] == ps[1..] + [Outside];
      InFlightFork(ps[1..]);
    }
  }

  lemma {:induction false} InFlightZero(ps: seq<Phase>)
    requires forall t :: 0 <= t < |ps| ==> !ps[t].Swapped?
    ensures InFlight(ps) == 0
  {
    if ps != [] {
      InFlightZero(ps[1..]);
    }
  }

  lemma {:induction false} KeptByThread(s: State, t: nat, step: Step)
    requires Inv(s) && Enabled(s, t, step) && !step.Drop? && !step.Fork?
    ensures Inv(Next(s, t, step))
  {
    var n := Next(s, t, step);
    InFlightUpdate(s.threads, t, n.threads[t]);
    if step.RecordPeak? {
      SumAppend(s.live, [s.threads[t].bytes]);
      assert Sum([s.threads[t].bytes]) == s.threads[t].bytes;
    }
    if n.peak != n.highest {
      var w: nat;
      if step.Swap? && n.highest == n.threads[t].requested {
        w := t;
      } else {
        w :| w < |s.threads| && s.threads[w].Swapped? && s.threads[w].requested == s.highest;
        assert w != t;
      }
      assert n.threads[w].Swapped? && n.threads[w].requested == n.highest;
    }
    hide Sum, InFlight;
  }

  lemma {:induction false} Kept(s: State, t: nat, step: Step)
    requires Inv(s) && Enabled(s, t, step)
    ensures Inv(Next(s, t, step))
    ensures step.Drop? ==> s.live[step.which] <= s.used
  {
    if step.Drop? {
      SumWithout(s.live, step.which);
      hide Sum, InFlight;
    } else if step.Fork? {
      InFlightFork(s.threads);
      var n := Next(s, t, step);
      assert n.threads[..|s.threads|] == s.threads;
      if s.peak != s.highest {
        var w :| 0 <= w < |s.threads| && s.threads[w].Swapped? && s.threads[w].requested == s.highest;
        assert n.threads[w] == s.threads[w];
      }
    } else {
      KeptByThread(s, t, step);
    }
  }

  // ---------- whole runs ----------

  ghost predicate Follows(s: State, n: State) {
    exists t, step :: Enabled(s, t, step) && n == Next(s, t, step)
  }

  ghost predicate IsRun(run: seq<State>) {
    run != [] && Init(run[0]) && forall k :: 0 <= k < |run| - 1 ==> Follows(run[k], run[k + 1])
  }

  /** The largest value the counter had in a run. */
  function Highest(run: seq<State>): nat
    requires run != []
  {
    if |run| == 1 then run[0].used else Max(Highest(run[..|run| - 1]), run[|run| - 1].used)
  }

  /**
   * In every reachable state the counter is the sum of the reservations given out or about to be, it never
   * passes the limit, and neither does the recorded peak.
   */
  lemma {:induction false} RunKeeps(run: seq<State>)
    requires IsRun(run)
    ensures Inv(run[|run| - 1]) && run[|run| - 1].limit == run[0].limit
    ensures run[|run| - 1].highest == Highest(run)
  {
    var last := run[|run| - 1];
    if |run| == 1 {
      InFlightZero(last.threads);
    } else {
      var before := run[|run| - 2];
      RunKeeps(run[..|run| - 1]);
      assert Follows(before, last);
      var t, step :| Enabled(before, t, step) && last == Next(before, t, step);
      Kept(before, t, step);
      hide Sum, InFlight;
    }
  }

  /** No thread is between its exchange and its peak update. */
  predicate Quiet(s: State) {
    forall t :: 0 <= t < |s.threads| ==> !s.threads[t].Swapped?
  }

  /** With no thread between its exchange and its peak update, the peak is the historical maximum. */
  lemma PeakIsHighest(run: seq<State>)
    requires IsRun(run) && Quiet(run[|run| - 1])
    ensures run[|run| - 1].peak == Highest(run)
    ensures run[|run| - 1].used == Sum(run[|run| - 1].live)
  {
    RunKeeps(run);
    InFlightZero(run[|run| - 1].threads);
  }

  /** No drop ever takes more than is reserved, so the 64-bit subtraction never wraps. */
  lemma DropNeverWraps(run: seq<State>, t: nat, which: nat)
    requires IsRun(run) && Enabled(run[|run| - 1], t, Drop(which))
    ensures run[|run| - 1].live[which] <= run[|run| - 1].used
  {
    RunKeeps(run);
    Kept(run[|run| - 1], t, Drop(which));
  }

  /** Thread `t` read its value of the counter in state `k` and has held it ever since. */
  ghost predicate ReadAt(run: seq<State>, t: nat, me: Phase, k: nat) {
    && k < |run| - 1 && me.Loaded? && run[k].used == me.seen
    && forall i :: k < i < |run| ==> t < |run[i].threads| && run[i].threads[t] == me
  }

  /** A thread holding a value either just read it or held it before. */
  lemma ReadOrHeld(s: State, n: State, t: nat)
    requires Follows(s, n) && t < |n.threads| && n.threads[t].Loaded?
    ensures s.used == n.threads[t].seen || (t < |s.threads| && s.threads[t] == n.threads[t])
  {
    var w, step :| Enabled(s, w, step) && n == Next(s, w, step);
  }

  /** A thread that is about to be refused saw, during this very call, the value it holds. */
  lemma {:induction false} RefusalWasTrue(run: seq<State>, t: nat) returns (k: nat)
    requires IsRun(run) && t < |run[|run| - 1].threads| && run[|run| - 1].threads[t].Loaded?
    ensures ReadAt(run, t, run[|run| - 1].threads[t], k)
  {
    var n := |run| - 1;
    var me := run[n].threads[t];
    k := 0;
    if n > 0 {
      hide Follows;
      ReadOrHeld(run[n - 1], run[n], t);
      if run[n - 1].used == me.seen {
        k := n - 1;
      } else {
        var shorter := run[..n];
        assert shorter[|shorter| - 1] == run[n - 1];
        k := RefusalWasTrue(shorter, t);
        assert run[k] == shorter[k];
        forall i | k < i < |run|
          ensures t < |run[i].threads| && run[i].threads[t] == me
        {
          assert i < n ==> run[i] == shorter[i];
        }
      }
    }
  }

  /** So a refusal means that some counter value seen during the call, plus the request, was over the limit. */
  lemma RefusedOnlyOverLimit(run: seq<State>, t: nat)
    requires IsRun(run) && Enabled(run[|run| - 1], t, Refuse)
    ensures exists k :: 0 <= k < |run| - 1 && run[k].used + run[|run| - 1].threads[t].bytes > run[0].limit
  {
    var k := RefusalWasTrue(run, t);
    RunKeeps(run);
    var me := run[|run| - 1].threads[t];
    assert run[k].used + me.bytes > run[0].limit;
  }
}
