/** The recovery builder of projection.rs: recording fragments and restoring a document from them. */
module Recovery {
  import Sorting
  import opened Json
  import opened TextOrder
  import opened Pointer
  import opened Overlay
  import opened Damage

  datatype Restoration = Restoration(path: string, original: Value)

  // ---------- order of paths ----------

  predicate ByPath(r: Restoration, s: Restoration) {
    StrLe(r.path, s.path)
  }

  lemma ByPathOrders()
    ensures Sorting.Orders(ByPath)
  {
    forall r, s
      ensures ByPath(r, s) || ByPath(s, r)
    {
      StrLeTotal(r.path, s.path);
    }
    forall r, s, t | ByPath(r, s) && ByPath(s, t)
      ensures ByPath(r, t)
    {
      StrLeTransitive(r.path, s.path, t.path);
    }
  }

  predicate SortedByPath(rs: seq<Restoration>) {
    Sorting.Sorted(ByPath, rs)
  }

  // ---------- lists of fragments ----------

  /** No path of the list is the same as, or above, another one; every path is a printed token sequence. */
  predicate Separate(rs: seq<Restoration>) {
    (forall i :: 0 <= i < |rs| ==> rs[i].path == Encode(Decode(rs[i].path)))
    && (forall i, j :: 0 <= i < |rs| && 0 <= j < |rs| && i != j ==> !IsSameOrAncestor(rs[i].path, rs[j].path))
  }

  /** The fragments from position `i` on, by token path. */
  ghost function PatchFrom(rs: seq<Restoration>, i: nat): Patch
    requires i <= |rs|
    decreases |rs| - i
  {
    if i == |rs| then map[] else PatchFrom(rs, i + 1)[Decode(rs[i].path) := rs[i].original]
  }

  ghost function PatchOf(rs: seq<Restoration>): Patch {
    PatchFrom(rs, 0)
  }

  lemma {:induction false} SeparateTokens(rs: seq<Restoration>, i: nat, j: nat)
    requires Separate(rs) && i < |rs| && j < |rs| && i != j
    ensures !(Decode(rs[i].path) <= Decode(rs[j].path))
  {
    AncestorIsPrefix(Decode(rs[i].path), Decode(rs[j].path));
  }

  lemma {:induction false} PatchMember(rs: seq<Restoration>, i: nat, p: Path)
    requires i <= |rs|
    ensures p in PatchFrom(rs, i) <==> exists j :: i <= j < |rs| && Decode(rs[j].path) == p
    decreases |rs| - i
  {
    if i < |rs| {
      PatchMember(rs, i + 1, p);
    }
  }

  lemma {:induction false} FirstValue(rs: seq<Restoration>, i: nat, j: nat)
    requires i <= j < |rs|
    requires forall k :: i <= k < j ==> Decode(rs[k].path) != Decode(rs[j].path)
    ensures Decode(rs[j].path) in PatchFrom(rs, i) && PatchFrom(rs, i)[Decode(rs[j].path)] == rs[j].original
    decreases |rs| - i
  {
    if i < j {
      FirstValue(rs, i + 1, j);
      assert Decode(rs[i].path) != Decode(rs[j].path);
    }
  }

  lemma {:induction false} PatchValue(rs: seq<Restoration>, i: nat, j: nat)
    requires Separate(rs) && i <= j < |rs|
    ensures Decode(rs[j].path) in PatchFrom(rs, i) && PatchFrom(rs, i)[Decode(rs[j].path)] == rs[j].original
  {
    forall k | i <= k < j
      ensures Decode(rs[k].path) != Decode(rs[j].path)
    {
      SeparateTokens(rs, k, j);
    }
    FirstValue(rs, i, j);
  }

  lemma {:induction false} PatchNonNested(rs: seq<Restoration>, i: nat)
    requires Separate(rs) && i <= |rs|
    ensures NonNested(PatchFrom(rs, i))
  {
    var R := PatchFrom(rs, i);
    forall p, q | p in R && q in R && p <= q
      ensures p == q
    {
      PatchMember(rs, i, p);
      PatchMember(rs, i, q);
      var j :| i <= j < |rs| && Decode(rs[j].path) == p;
      var k :| i <= k < |rs| && Decode(rs[k].path) == q;
      if j != k {
        SeparateTokens(rs, j, k);
      }
    }
  }

  /** A separate list and a patch with the same entries are the same. */
  lemma {:induction false} PatchUnique(rs: seq<Restoration>, R: Patch)
    requires Separate(rs)
    requires forall r :: r in rs ==> Decode(r.path) in R && R[Decode(r.path)] == r.original
    requires forall p :: p in R ==> exists r :: r in rs && Decode(r.path) == p
    ensures PatchOf(rs) == R
  {
    forall p
      ensures p in PatchOf(rs) <==> p in R
      ensures p in R ==> PatchOf(rs)[p] == R[p]
    {
      PatchMember(rs, 0, p);
      if i :| 0 <= i < |rs| && Decode(rs[i].path) == p {
        PatchValue(rs, 0, i);
      }
    }
  }

  // ---------- restoring ----------

  /** Writes the fragments in list order, as restore_tidas_projection does. */
  function RestoreFrom(doc: Value, rs: seq<Restoration>, i: nat): Result<Value, SetError>
    requires i <= |rs|
    decreases |rs| - i
  {
    if i == |rs| then Ok(doc)
    else
      match SetPointer(doc, rs[i].path, rs[i].original)
      case Ok(next) => RestoreFrom(next, rs, i + 1)
      case Err(e) => Err(e)
  }

  method RestoreAll(document: Value, rs: seq<Restoration>) returns (r: Result<Value, SetError>)
    ensures r == RestoreFrom(document, rs, 0)
  {
    var doc := document;
    for i := 0 to |rs|
      invariant RestoreFrom(document, rs, 0) == RestoreFrom(doc, rs, i)
    {
      match SetPointer(doc, rs[i].path, rs[i].original)
      case Ok(next) => doc := next;
      case Err(e) => return Err(e);
    }
    r := Ok(doc);
  }

  lemma {:induction false} DropFirst(rs: seq<Restoration>, i: nat)
    requires Separate(rs) && i < |rs|
    ensures Decode(rs[i].path) in PatchFrom(rs, i)
    ensures PatchFrom(rs, i) - {Decode(rs[i].path)} == PatchFrom(rs, i + 1)
  {
    var p := Decode(rs[i].path);
    PatchMember(rs, i + 1, p);
    if j :| i + 1 <= j < |rs| && Decode(rs[j].path) == p {
      SeparateTokens(rs, i, j);
    }
  }

  lemma {:induction false} RestoreRest(doc: Value, rs: seq<Restoration>, i: nat)
    requires Separate(rs) && i <= |rs| && Fits(doc, PatchFrom(rs, i), [])
    ensures RestoreFrom(doc, rs, i) == Ok(Overlaid(doc, PatchFrom(rs, i), []))
    decreases |rs| - i
  {
    var R := PatchFrom(rs, i);
    if i == |rs| {
      ClearOverlay(doc, R, []);
    } else {
      var p := Decode(rs[i].path);
      PatchNonNested(rs, i);
      assert [] + p == p;
      DropFirst(rs, i);
      SetOne(doc, R, [], p);
      RestoreRest(SetParts(doc, p, R[p]).value, rs, i + 1);
    }
  }

  /** Whether or not the fragments fit: restoring, when it succeeds, shows no member "0" that laying them over
      does not. */
  lemma {:induction false} RestoreShows(doc: Value, rs: seq<Restoration>, i: nat, z: Path)
    requires Separate(rs) && i <= |rs| && Landing(doc, PatchFrom(rs, i), []) && RestoreFrom(doc, rs, i).Ok?
    ensures ZeroAt(RestoreFrom(doc, rs, i).value, z) ==> Shows(doc, PatchFrom(rs, i), [], z)
    decreases |rs| - i
  {
    var R := PatchFrom(rs, i);
    if i == |rs| {
      ClearShows(doc, R, [], z);
    } else {
      var p := Decode(rs[i].path);
      PatchNonNested(rs, i);
      assert [] + p == p;
      DropFirst(rs, i);
      assert SetPointer(doc, rs[i].path, rs[i].original) == SetParts(doc, p, R[p]);
      SetLanding(doc, R, [], p);
      SetShows(doc, R, [], p, z);
      RestoreShows(SetParts(doc, p, R[p]).value, rs, i + 1, z);
    }
  }

  /** Restoring in list order always succeeds and gives the overlaid document. Only separateness is asked
      of the list, so every order of the same fragments restores the same document. */
  lemma {:induction false} RestoreIsOverlay(doc: Value, rs: seq<Restoration>)
    requires Separate(rs) && Fits(doc, PatchOf(rs), [])
    ensures RestoreFrom(doc, rs, 0) == Ok(Overlaid(doc, PatchOf(rs), []))
  {
    RestoreRest(doc, rs, 0);
  }

  lemma {:induction false} RestoreOrderIsIrrelevant(doc: Value, rs: seq<Restoration>, other: seq<Restoration>)
    requires Separate(rs) && Separate(other) && multiset(rs) == multiset(other)
    requires Fits(doc, PatchOf(rs), [])
    ensures RestoreFrom(doc, other, 0) == RestoreFrom(doc, rs, 0)
  {
    forall r | r in other
      ensures Decode(r.path) in PatchOf(rs) && PatchOf(rs)[Decode(r.path)] == r.original
    {
      assert r in multiset(other);
      var j :| 0 <= j < |rs| && rs[j] == r;
      PatchValue(rs, 0, j);
    }
    forall p | p in PatchOf(rs)
      ensures exists r :: r in other && Decode(r.path) == p
    {
      PatchMember(rs, 0, p);
      var j :| 0 <= j < |rs| && Decode(rs[j].path) == p;
      assert rs[j] in multiset(other);
    }
    PatchUnique(other, PatchOf(rs));
    RestoreIsOverlay(doc, rs);
    RestoreIsOverlay(doc, other);
  }

  // ---------- recording ----------

  /** A fragment is recorded at `ts` or above it. */
  ghost predicate Held(R: Patch, ts: Path) {
    ts in R || Covered(R, ts)
  }

  /** The patch with one fragment at `ts` in place of everything below; nothing new when `ts` is held already. */
  ghost function RecordedWith(R: Patch, ts: Path, kept: Value): Patch {
    if Held(R, ts) then R else (map p | p in R && !(ts <= p) :: R[p])[ts := kept]
  }

  /** The patch after recording `original` at `ts`, when the earlier fragments fit into it. */
  ghost function RecordedAt(R: Patch, ts: Path, original: Value): Patch {
    RecordedWith(R, ts, Overlaid(original, R, ts))
  }

  /** `v` with the first `n` fragments, as far as they are at or below `path`, written into it one after another. */
  function LaidIn(v: Value, rs: seq<Restoration>, path: string, n: nat): Option<Value>
    requires n <= |rs|
  {
    if n == 0 then Some(v)
    else
      match LaidIn(v, rs, path, n - 1)
      case None => None
      case Some(before) =>
        if !IsSameOrAncestor(path, rs[n - 1].path) then Some(before)
        else
          match SetPointer(before, rs[n - 1].path[|path|..], rs[n - 1].original)
          case Err(_) => None
          case Ok(next) => Some(next)
  }

  lemma LaidInNext(v: Value, rs: seq<Restoration>, path: string, i: nat, before: Value)
    requires i < |rs| && LaidIn(v, rs, path, i) == Some(before)
    ensures IsSameOrAncestor(path, rs[i].path) ==>
              |path| <= |rs[i].path| &&
              LaidIn(v, rs, path, i + 1) ==
                match SetPointer(before, rs[i].path[|path|..], rs[i].original) case Ok(next) => Some(next) case Err(_) => None
    ensures !IsSameOrAncestor(path, rs[i].path) ==> LaidIn(v, rs, path, i + 1) == Some(before)
  {
    hide SetPointer;
  }

  /** After a write that fails nothing is written. */
  lemma {:induction false} LaidInStops(v: Value, rs: seq<Restoration>, path: string, i: nat, n: nat)
    requires i <= n <= |rs| && LaidIn(v, rs, path, i).None?
    ensures LaidIn(v, rs, path, n).None?
  {
    hide SetPointer;
    if i < n {
      LaidInStops(v, rs, path, i, n - 1);
    }
  }

  /** What the builder knows: the fragments, and whether laying one into another has failed. */
  datatype Log = Log(fragments: Patch, aborted: bool)

  /** The rule is counted once more and the counts of the others stay. */
  predicate OneMore(counts: map<string, nat>, now: map<string, nat>, rule: string) {
    && now.Keys == counts.Keys + {rule}
    && now[rule] == (if rule in counts then counts[rule] + 1 else 1)
    && forall k :: k in counts && k != rule ==> now[k] == counts[k]
  }

  function Incremented(counts: map<string, nat>, rule: string): (now: map<string, nat>)
    ensures OneMore(counts, now, rule)
  {
    counts[rule := (if rule in counts then counts[rule] else 0) + 1]
  }

  /** The fragments neither at nor below `path`. */
  function Outside(rs: seq<Restoration>, path: string): seq<Restoration> {
    if rs == [] then []
    else
      var last := rs[|rs| - 1];
      Outside(rs[..|rs| - 1], path) + (if IsSameOrAncestor(path, last.path) then [] else [last])
  }

  predicate Apart(r: Restoration, s: Restoration) {
    !IsSameOrAncestor(r.path, s.path) && !IsSameOrAncestor(s.path, r.path)
  }

  predicate Printed(r: Restoration) {
    r.path == Encode(Decode(r.path))
  }

  lemma {:induction false} OutsideMember(rs: seq<Restoration>, path: string, r: Restoration)
    ensures r in Outside(rs, path) <==> r in rs && !IsSameOrAncestor(path, r.path)
  {
    if rs != [] {
      var init, last := rs[..|rs| - 1], rs[|rs| - 1];
      OutsideMember(init, path, r);
      assert r in rs <==> r in init || r == last;
    }
  }

  lemma {:induction false} SeparateAppend(rs: seq<Restoration>, r: Restoration)
    requires Separate(rs) && Printed(r)
    requires forall s :: s in rs ==> Apart(r, s)
    ensures Separate(rs + [r])
  {
    var all := rs + [r];
    forall i, j | 0 <= i < |all| && 0 <= j < |all| && i != j
      ensures !IsSameOrAncestor(all[i].path, all[j].path)
    {
      if i == |rs| {
        assert all[j] in rs;
      } else if j == |rs| {
        assert all[i] in rs;
      }
    }
  }

  lemma {:induction false} SeparateInit(init: seq<Restoration>, last: Restoration)
    requires Separate(init + [last])
    ensures Separate(init) && Printed(last)
    ensures forall s :: s in init ==> Apart(last, s)
  {
    var all := init + [last];
    assert all[|init|] == last;
    assert forall i :: 0 <= i < |init| ==> all[i] == init[i];
  }

  lemma {:induction false} OutsideSeparate(rs: seq<Restoration>, path: string)
    requires Separate(rs)
    ensures Separate(Outside(rs, path))
  {
    if rs != [] {
      var init, last := rs[..|rs| - 1], rs[|rs| - 1];
      assert rs == init + [last];
      SeparateInit(init, last);
      OutsideSeparate(init, path);
      if !IsSameOrAncestor(path, last.path) {
        forall s | s in Outside(init, path)
          ensures Apart(last, s)
        {
          OutsideMember(init, path, s);
        }
        SeparateAppend(Outside(init, path), last);
      }
    }
  }

  lemma {:induction false} OutsideSorted(rs: seq<Restoration>, path: string)
    requires SortedByPath(rs)
    ensures SortedByPath(Outside(rs, path))
  {
    if rs != [] {
      var init, last := rs[..|rs| - 1], rs[|rs| - 1];
      OutsideSorted(init, path);
      forall i | 0 <= i < |Outside(init, path)|
        ensures StrLe(Outside(init, path)[i].path, last.path)
      {
        OutsideMember(init, path, Outside(init, path)[i]);
        var j :| 0 <= j < |init| && init[j] == Outside(init, path)[i];
        assert ByPath(rs[j], last);
      }
    }
  }

  lemma {:induction false} InsertSeparate(rs: seq<Restoration>, r: Restoration)
    requires Separate(rs + [r])
    ensures Separate(Sorting.Insert(ByPath, rs, r))
  {
    hide StrLe, IsSameOrAncestor;
    var n := Sorting.InsertSplits(ByPath, rs, r);
    var out := Sorting.Insert(ByPath, rs, r);
    hide Sorting.Insert;
    var all := rs + [r];
    forall i | 0 <= i < |out|
      ensures out[i] == all[Origin(|rs|, n, i)]
    {
    }
    forall i, j | 0 <= i < |out| && 0 <= j < |out| && i != j
      ensures !IsSameOrAncestor(out[i].path, out[j].path)
    {
      assert Origin(|rs|, n, i) != Origin(|rs|, n, j);
    }
    forall i | 0 <= i < |out|
      ensures Printed(out[i])
    {
      assert out[i] == all[Origin(|rs|, n, i)];
    }
  }

  function Origin(size: nat, n: nat, i: nat): (k: nat)
    requires n <= size && i <= size
    ensures k <= size
  {
    if i < n then i else if i == n then size else i - 1
  }

  /** Some fragment of the list lies at or above `ts` exactly when the patch holds `ts`. */
  lemma {:induction false} HeldIff(rs: seq<Restoration>, ts: Path)
    requires Separate(rs)
    ensures (exists i :: 0 <= i < |rs| && IsSameOrAncestor(rs[i].path, Encode(ts)))
       <==> ts in PatchOf(rs) || Covered(PatchOf(rs), ts)
  {
    if i :| 0 <= i < |rs| && IsSameOrAncestor(rs[i].path, Encode(ts)) {
      var p := Decode(rs[i].path);
      AncestorIsPrefix(p, ts);
      PatchMember(rs, 0, p);
      if p != ts {
        assert p < ts;
      }
    }
    if ts in PatchOf(rs) || Covered(PatchOf(rs), ts) {
      var p := if ts in PatchOf(rs) then ts else var q :| q in PatchOf(rs) && q < ts; q;
      PatchMember(rs, 0, p);
      var i :| 0 <= i < |rs| && Decode(rs[i].path) == p;
      AncestorIsPrefix(p, ts);
    }
  }

  lemma {:induction false} RecordedList(rs: seq<Restoration>, ts: Path, x: Value, out: seq<Restoration>)
    requires Separate(rs) && !(ts in PatchOf(rs)) && !Covered(PatchOf(rs), ts)
    requires out == Sorting.Insert(ByPath, Outside(rs, Encode(ts)), Restoration(Encode(ts), x))
    ensures Separate(out)
    ensures PatchOf(out) == (map p | p in PatchOf(rs) && !(ts <= p) :: PatchOf(rs)[p])[ts := x]
  {
    var path := Encode(ts);
    var kept, r := Outside(rs, path), Restoration(path, x);
    OutsideSeparate(rs, path);
    DecodeEncode(ts);
    HeldIff(rs, ts);
    forall s | s in kept
      ensures Apart(r, s)
    {
      OutsideMember(rs, path, s);
    }
    SeparateAppend(kept, r);
    InsertSeparate(kept, r);
    RecordedPatch(rs, ts, x, out);
  }

  lemma {:induction false} RecordedPatch(rs: seq<Restoration>, ts: Path, x: Value, out: seq<Restoration>)
    requires Separate(rs) && Separate(out)
    requires out == Sorting.Insert(ByPath, Outside(rs, Encode(ts)), Restoration(Encode(ts), x))
    ensures PatchOf(out) == (map p | p in PatchOf(rs) && !(ts <= p) :: PatchOf(rs)[p])[ts := x]
  {
    var kept, r := Outside(rs, Encode(ts)), Restoration(Encode(ts), x);
    var R := (map p | p in PatchOf(rs) && !(ts <= p) :: PatchOf(rs)[p])[ts := x];
    DecodeEncode(ts);
    forall s | s in out
      ensures Decode(s.path) in R && R[Decode(s.path)] == s.original
    {
      InsertMember(kept, r, s);
      if s != r {
        KeptEntry(rs, ts, s);
      }
    }
    forall p | p in R
      ensures exists s :: s in out && Decode(s.path) == p
    {
      var s := r;
      if p != ts {
        s := KeptWitness(rs, ts, p);
      }
      InsertMember(kept, r, s);
    }
    PatchUnique(out, R);
  }

  lemma {:induction false} InsertMember(rs: seq<Restoration>, r: Restoration, s: Restoration)
    ensures s in Sorting.Insert(ByPath, rs, r) <==> s in rs || s == r
  {
    var n := Sorting.InsertSplits(ByPath, rs, r);
    assert rs == rs[..n] + rs[n..];
  }

  lemma {:induction false} KeptEntry(rs: seq<Restoration>, ts: Path, r: Restoration)
    requires Separate(rs) && r in Outside(rs, Encode(ts))
    ensures Decode(r.path) in PatchOf(rs) && PatchOf(rs)[Decode(r.path)] == r.original
    ensures !(ts <= Decode(r.path))
  {
    OutsideMember(rs, Encode(ts), r);
    var j :| 0 <= j < |rs| && rs[j] == r;
    PatchValue(rs, 0, j);
    AncestorIsPrefix(ts, Decode(r.path));
  }

  lemma {:induction false} KeptWitness(rs: seq<Restoration>, ts: Path, p: Path) returns (r: Restoration)
    requires Separate(rs) && p in PatchOf(rs) && !(ts <= p)
    ensures r in Outside(rs, Encode(ts)) && Decode(r.path) == p
  {
    PatchMember(rs, 0, p);
    var j :| 0 <= j < |rs| && Decode(rs[j].path) == p;
    r := rs[j];
    AncestorIsPrefix(ts, p);
    OutsideMember(rs, Encode(ts), r);
  }

  /** What the builder holds after pushing the new fragment and sorting. */
  lemma {:induction false} PushedAndSorted(rs: seq<Restoration>, ts: Path, x: Value)
    requires Separate(rs) && SortedByPath(rs) && !(ts in PatchOf(rs)) && !Covered(PatchOf(rs), ts)
    ensures var out := Sorting.Sort(ByPath, Outside(rs, Encode(ts)) + [Restoration(Encode(ts), x)]);
      Separate(out) && SortedByPath(out)
      && PatchOf(out) == (map p | p in PatchOf(rs) && !(ts <= p) :: PatchOf(rs)[p])[ts := x]
  {
    var kept, r := Outside(rs, Encode(ts)), Restoration(Encode(ts), x);
    OutsideSorted(rs, Encode(ts));
    Sorting.SortKeeps(ByPath, kept);
    assert (kept + [r])[..|kept|] == kept;
    assert Sorting.Sort(ByPath, kept + [r]) == Sorting.Insert(ByPath, kept, r);
    ByPathOrders();
    Sorting.InsertSorted(ByPath, kept, r);
    RecordedList(rs, ts, x, Sorting.Insert(ByPath, kept, r));
  }

  /** The write of one turn of the loop that lays earlier fragments into a new one. */
  lemma {:induction false} RelativeWrite(rs: seq<Restoration>, i: nat, ts: Path, v: Value) returns (rel: Path)
    requires Separate(rs) && i < |rs| && IsSameOrAncestor(Encode(ts), rs[i].path)
    ensures ts + rel in PatchFrom(rs, i) && PatchFrom(rs, i) - {ts + rel} == PatchFrom(rs, i + 1)
    ensures NonNested(PatchFrom(rs, i))
    ensures SetPointer(v, rs[i].path[|Encode(ts)|..], rs[i].original) == SetParts(v, rel, PatchFrom(rs, i)[ts + rel])
  {
    var p := Decode(rs[i].path);
    AncestorIsPrefix(ts, p);
    rel := p[|ts|..];
    assert p == ts + rel;
    EncodeConcat(ts, rel);
    var relative := rs[i].path[|Encode(ts)|..];
    assert relative == Encode(rel);
    DecodeEncode(rel);
    PatchNonNested(rs, i);
    DropFirst(rs, i);
    assert relative == "" ==> rel == [] by {
      if rel != [] {
        EncodeStartsWithSlash(rel);
      }
    }
  }

  /** Fragments that fit stay fitting, and mean the same, as they are laid in. */
  lemma {:induction false} FittingStep(rs: seq<Restoration>, i: nat, ts: Path, v: Value)
    requires Separate(rs) && i < |rs| && IsSameOrAncestor(Encode(ts), rs[i].path)
    requires Fits(v, PatchFrom(rs, i), ts)
    ensures var written := SetPointer(v, rs[i].path[|Encode(ts)|..], rs[i].original);
      written.Ok? && Fits(written.value, PatchFrom(rs, i + 1), ts)
      && Overlaid(written.value, PatchFrom(rs, i + 1), ts) == Overlaid(v, PatchFrom(rs, i), ts)
  {
    var rel := RelativeWrite(rs, i, ts, v);
    SetOne(v, PatchFrom(rs, i), ts, rel);
  }

  lemma {:induction false} LandingStep(rs: seq<Restoration>, i: nat, ts: Path, v: Value)
    requires Separate(rs) && i < |rs| && IsSameOrAncestor(Encode(ts), rs[i].path)
    requires Landing(v, PatchFrom(rs, i), ts)
    ensures var written := SetPointer(v, rs[i].path[|Encode(ts)|..], rs[i].original);
      written.Ok? ==>
        Landing(written.value, PatchFrom(rs, i + 1), ts)
        && forall z :: Shows(written.value, PatchFrom(rs, i + 1), ts, z) ==> Shows(v, PatchFrom(rs, i), ts, z)
  {
    var rel := RelativeWrite(rs, i, ts, v);
    var written := SetPointer(v, rs[i].path[|Encode(ts)|..], rs[i].original);
    if written.Ok? {
      SetLanding(v, PatchFrom(rs, i), ts, rel);
      forall z
        ensures Shows(written.value, PatchFrom(rs, i + 1), ts, z) ==> Shows(v, PatchFrom(rs, i), ts, z)
      {
        SetShows(v, PatchFrom(rs, i), ts, rel, z);
      }
    }
  }

  lemma {:induction false} SkipStep(rs: seq<Restoration>, i: nat, ts: Path, v: Value)
    requires Separate(rs) && i < |rs| && !IsSameOrAncestor(Encode(ts), rs[i].path)
    ensures Agree(PatchFrom(rs, i), PatchFrom(rs, i + 1), ts)
    ensures Fits(v, PatchFrom(rs, i), ts) ==> Fits(v, PatchFrom(rs, i + 1), ts)
    ensures Overlaid(v, PatchFrom(rs, i + 1), ts) == Overlaid(v, PatchFrom(rs, i), ts)
    ensures Landing(v, PatchFrom(rs, i), ts) ==> Landing(v, PatchFrom(rs, i + 1), ts)
    ensures forall z :: Shows(v, PatchFrom(rs, i + 1), ts, z) ==> Shows(v, PatchFrom(rs, i), ts, z)
  {
    AncestorIsPrefix(ts, Decode(rs[i].path));
    DropFirst(rs, i);
    AgreeOverlay(v, PatchFrom(rs, i), PatchFrom(rs, i + 1), ts);
    if Fits(v, PatchFrom(rs, i), ts) {
      AgreeFits(v, PatchFrom(rs, i), PatchFrom(rs, i + 1), ts);
    }
    forall z
      ensures Shows(v, PatchFrom(rs, i + 1), ts, z) ==> Shows(v, PatchFrom(rs, i), ts, z)
    {
      AgreeShows(v, PatchFrom(rs, i), PatchFrom(rs, i + 1), ts, z);
    }
  }

  class RecoveryBuilder {
    var restorations: seq<Restoration>
    var adaptations: map<string, nat>

    /** Set when a recorded fragment could not be laid into a later one: the source aborts there. The model goes on
        with nothing in the fragment's place, and the caller reports the abort. */
    var aborted: bool

    ghost predicate Valid()
      reads this
    {
      Separate(restorations) && SortedByPath(restorations)
    }

    /** What has been recorded so far. */
    ghost function Recorded(): Patch
      reads this
    {
      PatchOf(restorations)
    }

    ghost function State(): Log
      reads this
    {
      Log(Recorded(), aborted)
    }

    constructor ()
      ensures Valid() && restorations == [] && adaptations == map[] && State() == Log(map[], false)
    {
      restorations := [];
      adaptations := map[];
      aborted := false;
    }

    /** True when a fragment at or above `path` is already recorded. */
    method IsHeld(path: string) returns (held: bool)
      ensures held <==> exists i :: 0 <= i < |restorations| && IsSameOrAncestor(restorations[i].path, path)
    {
      for i := 0 to |restorations|
        invariant forall j :: 0 <= j < i ==> !IsSameOrAncestor(restorations[j].path, path)
      {
        if IsSameOrAncestor(restorations[i].path, path) {
          return true;
        }
      }
      held := false;
    }

    /** Lays the fragments recorded below `path` into `original`. When they fit, no write fails and the result is
        the overlaid value; in any case it shows no member "0" that the overlay does not. */
    method Reconstruct(path: string, ghost ts: Path, original: Value) returns (reconstructed: Option<Value>)
      requires Valid() && path == Encode(ts) && Landing(original, Recorded(), ts)
      ensures reconstructed == LaidIn(original, restorations, path, |restorations|)
      ensures Fits(original, Recorded(), ts) ==> reconstructed == Some(Overlaid(original, Recorded(), ts))
      ensures reconstructed.Some? ==>
                forall z :: ZeroAt(reconstructed.value, z) ==> Shows(original, Recorded(), ts, z)
    {
      var rs := restorations;
      assert LaidIn(original, rs, path, 0) == Some(original);
      hide Separate, SortedByPath, Landing, Overlay.Fits, Overlay.Overlaid, Shows, ZeroAt, IsSameOrAncestor, LaidIn, SetPointer;
      var value := original;
      ghost var fits := Fits(original, PatchOf(rs), ts);
      for i := 0 to |rs|
        invariant Landing(value, PatchFrom(rs, i), ts) && Some(value) == LaidIn(original, rs, path, i)
        invariant fits ==> Fits(value, PatchFrom(rs, i), ts)
        invariant fits ==> Overlaid(value, PatchFrom(rs, i), ts) == Overlaid(original, PatchOf(rs), ts)
        invariant forall z :: Shows(value, PatchFrom(rs, i), ts, z) ==> Shows(original, PatchOf(rs), ts, z)
      {
        LaidInNext(original, rs, path, i, value);
        if IsSameOrAncestor(path, rs[i].path) {
          LandingStep(rs, i, ts, value);
          if fits {
            FittingStep(rs, i, ts, value);
          }
          match SetPointer(value, rs[i].path[|path|..], rs[i].original) {
            case Err(_) =>
              LaidInStops(original, rs, path, i + 1, |rs|);
              return None;
            case Ok(next) => value := next;
          }
        } else {
          SkipStep(rs, i, ts, value);
        }
      }
      AllLaidIn(value, PatchFrom(rs, |rs|), ts);
      reconstructed := Some(value);
    }

    /** Records the value now at `path`, unless a fragment at or above it is already kept. */
    method Record(path: string, ghost ts: Path, original: Value, rule: string) returns (ghost kept: Value)
      requires Valid() && path == Encode(ts)
      requires Covered(Recorded(), ts) || Landing(original, Recorded(), ts)
      modifies this
      ensures Valid()
      ensures Recorded() == RecordedWith(old(Recorded()), ts, kept)
      ensures Held(old(Recorded()), ts) || forall z :: ZeroAt(kept, z) ==> Shows(original, old(Recorded()), ts, z)
      ensures aborted ==
              (old(aborted) || (!Held(old(Recorded()), ts) && LaidIn(original, old(restorations), path, |old(restorations)|).None?))
      ensures Fits(original, old(Recorded()), ts) ==>
                Recorded() == RecordedAt(old(Recorded()), ts, original) && aborted == old(aborted)
      ensures OneMore(old(adaptations), adaptations, rule)
    {
      hide Landing, Overlay.Fits, Overlay.Overlaid, Shows, ZeroAt, IsSameOrAncestor, Sorting.Sort, Outside, OneMore, Incremented;
      var held := IsHeld(path);
      HeldIff(restorations, ts);
      adaptations := Incremented(adaptations, rule);
      kept := Null;
      if held {
        return;
      }
      var reconstructed := Reconstruct(path, ts, original);
      var fragment := Null;
      match reconstructed {
        case None =>
          aborted := true;
          NullShowsNothing();
        case Some(value) => fragment := value;
      }
      kept := fragment;
      var outside := Outside(restorations, path);
      PushedAndSorted(restorations, ts, fragment);
      restorations := Sorting.Sort(ByPath, outside + [Restoration(path, fragment)]);
    }
  }

  lemma NullShowsNothing()
    ensures forall z :: !ZeroAt(Null, z)
  {
  }

  lemma {:induction false} AllLaidIn(v: Value, R: Patch, ts: Path)
    requires R == map[]
    ensures Overlaid(v, R, ts) == v
    ensures forall z :: ZeroAt(v, z) ==> Shows(v, R, ts, z)
  {
    ClearOverlay(v, R, ts);
    forall z
      ensures ZeroAt(v, z) <==> Shows(v, R, ts, z)
    {
      ClearShows(v, R, ts, z);
    }
  }
}
