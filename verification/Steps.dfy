/** The overlay invariant: what an adaptation step may do to a value and to the recorded fragments. */
module Steps {
  import opened Json
  import opened Pointer
  import opened Overlay
  import opened Recovery
  import opened Damage

  /** A value at `ts` may be adapted further: it is already covered by a fragment above it, or every fragment
      at or below it still has its place. */
  ghost predicate Ready(v: Value, R: Patch, ts: Path) {
    NonNested(R) && (Covered(R, ts) || Fits(v, R, ts))
  }

  /** Going from `v0`, `R0` to `v1`, `R1` at `ts` loses nothing: laying the fragments over the new value gives
      what it gave before, and fragments elsewhere are untouched. Below a recorded fragment nothing is recorded. */
  ghost predicate Kept(v0: Value, R0: Patch, v1: Value, R1: Patch, ts: Path) {
    AgreeOutside(R0, R1, ts)
    && Ready(v1, R1, ts)
    && (Covered(R0, ts) ==> R1 == R0)
    && (!Covered(R0, ts) ==> Overlaid(v1, R1, ts) == Overlaid(v0, R0, ts))
  }

  lemma {:induction false} CoveredOutside(R0: Patch, R1: Patch, ts: Path)
    requires AgreeOutside(R0, R1, ts)
    ensures Covered(R0, ts) <==> Covered(R1, ts)
  {
    forall p | p < ts
      ensures p in R0 <==> p in R1
    {
      assert !(ts <= p);
    }
  }

  lemma {:induction false} KeptRefl(v: Value, R: Patch, ts: Path)
    requires Ready(v, R, ts)
    ensures Kept(v, R, v, R, ts)
  {
  }

  lemma {:induction false} OutsideTrans(R0: Patch, R1: Patch, R2: Patch, ts: Path)
    requires AgreeOutside(R0, R1, ts) && AgreeOutside(R1, R2, ts)
    ensures AgreeOutside(R0, R2, ts)
  {
    forall p | !(ts <= p)
      ensures (p in R0 <==> p in R2) && (p in R0 ==> R0[p] == R2[p])
    {
      assert p in R0 <==> p in R1;
    }
  }

  lemma {:induction false} KeptTrans(v0: Value, R0: Patch, v1: Value, R1: Patch, v2: Value, R2: Patch, ts: Path)
    requires Kept(v0, R0, v1, R1, ts) && Kept(v1, R1, v2, R2, ts)
    ensures Kept(v0, R0, v2, R2, ts)
  {
    CoveredOutside(R0, R1, ts);
    OutsideTrans(R0, R1, R2, ts);
  }

  lemma {:induction false} RecordedFrame(R: Patch, ts: Path, x: Value)
    requires NonNested(R)
    ensures NonNested(RecordedAt(R, ts, x))
    ensures AgreeOutside(R, RecordedAt(R, ts, x), ts)
  {
    var S := RecordedAt(R, ts, x);
    if !(ts in R) && !Covered(R, ts) {
      forall p | p in R
        ensures !(p <= ts)
      {
        assert p <= ts ==> p == ts || p < ts;
      }
    }
  }

  /** Once the value at `ts` is recorded, anything may replace it. */
  lemma {:induction false} RecordSelf(v0: Value, R: Patch, v1: Value, ts: Path)
    requires Ready(v0, R, ts)
    ensures Kept(v0, R, v1, RecordedAt(R, ts, v0), ts)
  {
    var S := RecordedAt(R, ts, v0);
    RecordedFrame(R, ts, v0);
    CoveredOutside(R, S, ts);
  }

  lemma {:induction false} PrefixStep(ts: Path, k: string, p: Path)
    ensures ts + [k] <= p <==> ts < p && p[|ts|] == k
  {
    if ts < p && p[|ts|] == k {
      assert p[..|ts| + 1] == ts + [k];
    }
  }

  lemma {:induction false} OutsideParent(R0: Patch, R1: Patch, ts: Path, k: string)
    requires AgreeOutside(R0, R1, ts + [k])
    ensures AgreeOutside(R0, R1, ts)
    ensures ts in R0 <==> ts in R1
  {
    forall p | !(ts <= p)
      ensures (p in R0 <==> p in R1) && (p in R0 ==> R0[p] == R1[p])
    {
      PrefixStep(ts, k, p);
    }
    assert !(ts + [k] <= ts);
  }

  lemma {:induction false} SiblingAgree(R0: Patch, R1: Patch, ts: Path, k: string, j: string)
    requires AgreeOutside(R0, R1, ts + [k]) && j != k
    ensures Agree(R0, R1, ts + [j])
  {
    forall p | ts + [j] <= p
      ensures (p in R0 <==> p in R1) && (p in R0 ==> R0[p] == R1[p])
    {
      PrefixStep(ts, k, p);
      PrefixStep(ts, j, p);
    }
  }

  lemma {:induction false} CoveredChild(R: Patch, ts: Path, k: string)
    ensures Covered(R, ts + [k]) <==> ts in R || Covered(R, ts)
  {
    if p :| p in R && p < ts + [k] {
      assert p <= ts;
      assert p == ts || p < ts;
    }
    if ts in R {
      assert ts < ts + [k];
    }
    if Covered(R, ts) {
      var p :| p in R && p < ts;
      assert p < ts + [k];
    }
  }

  /** A ready object has ready members. */
  lemma {:induction false} ReadyMember(m: map<string, Value>, R: Patch, ts: Path, k: string)
    requires Ready(Obj(m), R, ts) && k in m
    ensures Ready(m[k], R, ts + [k])
  {
    CoveredChild(R, ts, k);
  }

  lemma {:induction false} ReadyItem(items: seq<Value>, R: Patch, ts: Path, i: nat)
    requires Ready(Arr(items), R, ts) && i < |items|
    ensures Ready(items[i], R, ts + [Decimal(i)])
  {
    CoveredChild(R, ts, Decimal(i));
  }

  /** A fragment that still reaches its place after one child has changed. */
  lemma {:induction false} NextFitsMember(m: map<string, Value>, n: map<string, Value>, R0: Patch, R1: Patch, ts: Path, k: string)
    requires AgreeOutside(R0, R1, ts + [k])
    requires forall p :: p in R0 && ts < p ==> NextFits(Obj(m), p, ts)
    requires forall j :: j in m && j != k ==> j in n
    requires k in n || (k != "0" && forall p :: p in R1 && ts + [k] <= p ==> p == ts + [k])
    ensures forall p :: p in R1 && ts < p ==> NextFits(Obj(n), p, ts)
  {
    forall p | p in R1 && ts < p
      ensures NextFits(Obj(n), p, ts)
    {
      PrefixStep(ts, k, p);
      if p[|ts|] != k {
        assert p in R0;
        assert NextFits(Obj(m), p, ts);
      }
    }
  }

  lemma {:induction false} HeadsOutside(R0: Patch, R1: Patch, ts: Path, k: string)
    requires AgreeOutside(R0, R1, ts + [k])
    ensures forall j :: j != k ==> (j in Heads(R0, ts) <==> j in Heads(R1, ts))
    ensures forall j :: j != k && j in Heads(R0, ts) ==> R0[ts + [j]] == R1[ts + [j]]
  {
    forall j | j != k
      ensures j in Heads(R0, ts) <==> j in Heads(R1, ts)
      ensures j in Heads(R0, ts) ==> R0[ts + [j]] == R1[ts + [j]]
    {
      PrefixStep(ts, k, ts + [j]);
    }
  }

  /** Changing one member of an object without loss changes the object without loss. */
  lemma {:induction false} StepMember(m: map<string, Value>, R0: Patch, k: string, c1: Value, R1: Patch, ts: Path)
    requires Ready(Obj(m), R0, ts) && k in m && Kept(m[k], R0, c1, R1, ts + [k])
    ensures Kept(Obj(m), R0, Obj(m[k := c1]), R1, ts)
  {
    OutsideParent(R0, R1, ts, k);
    CoveredChild(R0, ts, k);
    CoveredChild(R1, ts, k);
    CoveredOutside(R0, R1, ts);
    if !(ts in R0) && !Covered(R0, ts) {
      var n := m[k := c1];
      NextFitsMember(m, n, R0, R1, ts, k);
      HeadsOutside(R0, R1, ts, k);
      forall j | j in n
        ensures Fits(n[j], R1, ts + [j])
      {
        if j != k {
          SiblingAgree(R0, R1, ts, k, j);
          AgreeFits(m[j], R0, R1, ts + [j]);
        }
      }
      MemberOverlay(m, R0, k, c1, R1, ts);
    }
  }

  lemma {:induction false} MemberOverlay(m: map<string, Value>, R0: Patch, k: string, c1: Value, R1: Patch, ts: Path)
    requires AgreeOutside(R0, R1, ts + [k]) && k in m && !(ts in R0) && !(ts in R1)
    requires Overlaid(c1, R1, ts + [k]) == Overlaid(m[k], R0, ts + [k])
    ensures Overlaid(Obj(m[k := c1]), R1, ts) == Overlaid(Obj(m), R0, ts)
  {
    hide Overlay.Overlaid, Heads;
    var n := m[k := c1];
    HeadsOutside(R0, R1, ts, k);
    assert n.Keys + Heads(R1, ts) == m.Keys + Heads(R0, ts);
    forall j | j in n.Keys + Heads(R1, ts)
      ensures Slot(n, R1, ts, j) == Slot(m, R0, ts, j)
    {
      if j != k && j in m {
        SiblingAgree(R0, R1, ts, k, j);
        AgreeOverlay(m[j], R0, R1, ts + [j]);
      }
    }
    SameObject(n, R1, m, R0, ts);
  }

  /** Recording a member and then removing it loses nothing, unless its name is "0". */
  lemma {:induction false} StepRemove(m: map<string, Value>, R0: Patch, k: string, ts: Path)
    requires Ready(Obj(m), R0, ts) && k in m && k != "0"
    ensures Kept(Obj(m), R0, Obj(m - {k}), RecordedAt(R0, ts + [k], m[k]), ts)
  {
    var R1 := RecordedAt(R0, ts + [k], m[k]);
    RecordedFrame(R0, ts + [k], m[k]);
    OutsideParent(R0, R1, ts, k);
    CoveredChild(R0, ts, k);
    CoveredOutside(R0, R1, ts);
    if !(ts in R0) && !Covered(R0, ts) {
      assert ts + [k] in R1;
      NextFitsMember(m, m - {k}, R0, R1, ts, k);
      OthersRemain(m, R0, k, ts, R1);
    }
  }

  lemma {:induction false} OthersRemain(m: map<string, Value>, R0: Patch, k: string, ts: Path, R1: Patch)
    requires AgreeOutside(R0, R1, ts + [k]) && k in m && !(ts in R0) && !(ts in R1) && Fits(Obj(m), R0, ts)
    requires ts + [k] in R1 && R1[ts + [k]] == Overlaid(m[k], R0, ts + [k])
    ensures forall j :: j in m - {k} ==> Fits(m[j], R1, ts + [j])
    ensures Overlaid(Obj(m - {k}), R1, ts) == Overlaid(Obj(m), R0, ts)
  {
    var n := m - {k};
    HeadsOutside(R0, R1, ts, k);
    forall j | j in n
      ensures Fits(n[j], R1, ts + [j])
      ensures Slot(n, R1, ts, j) == Slot(m, R0, ts, j)
    {
      SiblingAgree(R0, R1, ts, k, j);
      AgreeFits(m[j], R0, R1, ts + [j]);
      AgreeOverlay(m[j], R0, R1, ts + [j]);
    }
    assert n.Keys + Heads(R1, ts) == m.Keys + Heads(R0, ts);
    SameObject(n, R1, m, R0, ts);
  }

  /** Recording a member and then replacing it by anything loses nothing. */
  lemma {:induction false} StepReplace(m: map<string, Value>, R0: Patch, k: string, c1: Value, ts: Path)
    requires Ready(Obj(m), R0, ts) && k in m
    ensures Kept(Obj(m), R0, Obj(m[k := c1]), RecordedAt(R0, ts + [k], m[k]), ts)
  {
    ReadyMember(m, R0, ts, k);
    RecordSelf(m[k], R0, c1, ts + [k]);
    StepMember(m, R0, k, c1, RecordedAt(R0, ts + [k], m[k]), ts);
  }

  /** Changing one item of an array without loss changes the array without loss. */
  lemma {:induction false} StepItem(items: seq<Value>, R0: Patch, i: nat, c1: Value, R1: Patch, ts: Path)
    requires Ready(Arr(items), R0, ts) && i < |items| && Kept(items[i], R0, c1, R1, ts + [Decimal(i)])
    requires ts + [Decimal(i)] in R1 ==> c1.Obj? || ts in R1 || Covered(R1, ts)
    ensures Kept(Arr(items), R0, Arr(items[i := c1]), R1, ts)
  {
    var k := Decimal(i);
    OutsideParent(R0, R1, ts, k);
    CoveredChild(R0, ts, k);
    CoveredChild(R1, ts, k);
    CoveredOutside(R0, R1, ts);
    if !(ts in R0) && !Covered(R0, ts) {
      NextFitsItem(items, i, c1, R0, R1, ts);
      ItemsAfter(items, R0, i, c1, R1, ts);
    }
  }

  lemma {:induction false} ItemsAfter(items: seq<Value>, R0: Patch, i: nat, c1: Value, R1: Patch, ts: Path)
    requires i < |items| && AgreeOutside(R0, R1, ts + [Decimal(i)]) && !(ts in R0) && !(ts in R1)
    requires Fits(Arr(items), R0, ts) && Fits(c1, R1, ts + [Decimal(i)])
    requires Overlaid(c1, R1, ts + [Decimal(i)]) == Overlaid(items[i], R0, ts + [Decimal(i)])
    requires forall p :: p in R1 && ts < p ==> NextFits(Arr(items[i := c1]), p, ts)
    ensures Fits(Arr(items[i := c1]), R1, ts)
    ensures Overlaid(Arr(items[i := c1]), R1, ts) == Overlaid(Arr(items), R0, ts)
  {
    var out := items[i := c1];
    forall j | 0 <= j < |out|
      ensures Fits(out[j], R1, ts + [Decimal(j)])
      ensures Overlaid(out[j], R1, ts + [Decimal(j)]) == Overlaid(items[j], R0, ts + [Decimal(j)])
    {
      if j != i {
        OtherItem(items[j], i, j, R0, R1, ts);
      }
    }
    FitsArray(out, R1, ts);
    SameArray(out, R1, items, R0, ts);
  }

  lemma {:induction false} FitsArray(items: seq<Value>, R: Patch, ts: Path)
    requires forall p :: p in R && ts < p ==> NextFits(Arr(items), p, ts)
    requires forall j :: 0 <= j < |items| ==> Fits(items[j], R, ts + [Decimal(j)])
    ensures Fits(Arr(items), R, ts)
  {
  }

  lemma {:induction false} SameArray(items: seq<Value>, R: Patch, other: seq<Value>, S: Patch, ts: Path)
    requires !(ts in R) && !(ts in S) && |items| == |other|
    requires forall j :: 0 <= j < |items| ==>
      Overlaid(items[j], R, ts + [Decimal(j)]) == Overlaid(other[j], S, ts + [Decimal(j)])
    ensures Overlaid(Arr(items), R, ts) == Overlaid(Arr(other), S, ts)
  {
    var o, o' := Overlaid(Arr(items), R, ts).items, Overlaid(Arr(other), S, ts).items;
    forall j | 0 <= j < |o|
      ensures o[j] == o'[j]
    {
    }
  }

  lemma {:induction false} OtherItem(v: Value, i: nat, j: nat, R0: Patch, R1: Patch, ts: Path)
    requires i != j && AgreeOutside(R0, R1, ts + [Decimal(i)]) && Fits(v, R0, ts + [Decimal(j)])
    ensures Fits(v, R1, ts + [Decimal(j)])
    ensures Overlaid(v, R1, ts + [Decimal(j)]) == Overlaid(v, R0, ts + [Decimal(j)])
  {
    ParseDecimal(i);
    ParseDecimal(j);
    SiblingAgree(R0, R1, ts, Decimal(i), Decimal(j));
    AgreeFits(v, R0, R1, ts + [Decimal(j)]);
    AgreeOverlay(v, R0, R1, ts + [Decimal(j)]);
  }

  lemma {:induction false} NextFitsItem(items: seq<Value>, i: nat, c1: Value, R0: Patch, R1: Patch, ts: Path)
    requires i < |items| && AgreeOutside(R0, R1, ts + [Decimal(i)])
    requires ts + [Decimal(i)] in R1 ==> c1.Obj?
    requires forall p :: p in R0 && ts < p ==> NextFits(Arr(items), p, ts)
    ensures forall p :: p in R1 && ts < p ==> NextFits(Arr(items[i := c1]), p, ts)
  {
    forall p | p in R1 && ts < p
      ensures NextFits(Arr(items[i := c1]), p, ts)
    {
      PrefixStep(ts, Decimal(i), p);
      ParseDecimal(i);
      assert p[|ts|] == Decimal(i) && |p| == |ts| + 1 ==> p == ts + [Decimal(i)];
      if p[|ts|] != Decimal(i) {
        assert p in R0;
        assert NextFits(Arr(items), p, ts);
      }
    }
  }

  // ---------- what a step does whether or not it loses something ----------

  /** A value at `ts` may be adapted, even after a loss: it is covered, or every write at or below it lands. */
  ghost predicate Sure(v: Value, R: Patch, ts: Path) {
    NonNested(R) && (Covered(R, ts) || Landing(v, R, ts))
  }

  /** Going from `v0`, `R0` to `v1`, `R1` at `ts` touches no fragment elsewhere, nothing at all under a fragment, and
      makes no member "0" come back that did not come back before. */
  ghost predicate Faded(v0: Value, R0: Patch, v1: Value, R1: Patch, ts: Path) {
    AgreeOutside(R0, R1, ts)
    && Sure(v1, R1, ts)
    && (Held(R0, ts) ==> R1 == R0)
    && (!Covered(R0, ts) ==> forall z :: Shows(v1, R1, ts, z) ==> Shows(v0, R0, ts, z))
  }

  /** Some member "0" that came back before no longer does. */
  ghost predicate Loses(v0: Value, R0: Patch, v1: Value, R1: Patch, ts: Path) {
    !Held(R0, ts) && exists z :: Shows(v0, R0, ts, z) && !Shows(v1, R1, ts, z)
  }

  /** A step from `v0` to `v1` at `ts`. When `lost`, a member "0" is gone for good; otherwise nothing is lost from a
      value that could still be recovered, and recording did not abort. */
  ghost predicate Passed(v0: Value, L0: Log, v1: Value, L1: Log, ts: Path, lost: bool) {
    Faded(v0, L0.fragments, v1, L1.fragments, ts)
    && (lost ==> Loses(v0, L0.fragments, v1, L1.fragments, ts))
    && (!lost && Ready(v0, L0.fragments, ts) ==>
          Kept(v0, L0.fragments, v1, L1.fragments, ts) && L1.aborted == L0.aborted)
  }

  /** What RecoveryBuilder.Record promises about `v` at `ts`. */
  ghost predicate RecordedSo(v: Value, L0: Log, L1: Log, ts: Path, kept: Value) {
    L1.fragments == RecordedWith(L0.fragments, ts, kept)
    && (Held(L0.fragments, ts) || forall z :: ZeroAt(kept, z) ==> Shows(v, L0.fragments, ts, z))
    && (Held(L0.fragments, ts) ==> L1.aborted == L0.aborted)
    && (Fits(v, L0.fragments, ts) ==> L1.fragments == RecordedAt(L0.fragments, ts, v) && L1.aborted == L0.aborted)
  }

  lemma {:induction false} HeldOutside(R0: Patch, R1: Patch, ts: Path, k: string)
    requires AgreeOutside(R0, R1, ts + [k])
    ensures Held(R0, ts) <==> Held(R1, ts)
    ensures ts in R0 <==> ts in R1
    ensures Held(R0, ts) <==> Covered(R0, ts + [k])
  {
    OutsideParent(R0, R1, ts, k);
    CoveredOutside(R0, R1, ts);
    CoveredChild(R0, ts, k);
  }

  lemma {:induction false} PassedRefl(v: Value, L: Log, ts: Path)
    requires Sure(v, L.fragments, ts)
    ensures Passed(v, L, v, L, ts, false)
  {
    if Ready(v, L.fragments, ts) {
      KeptRefl(v, L.fragments, ts);
    }
  }

  lemma {:induction false} PassedTrans(v0: Value, L0: Log, v1: Value, L1: Log, v2: Value, L2: Log, ts: Path, a: bool, b: bool)
    requires Passed(v0, L0, v1, L1, ts, a) && Passed(v1, L1, v2, L2, ts, b)
    ensures Passed(v0, L0, v2, L2, ts, a || b)
  {
    var R0, R1, R2 := L0.fragments, L1.fragments, L2.fragments;
    hide Kept, Faded, Loses, Ready;
    FadedTrans(v0, R0, v1, R1, v2, R2, ts);
    if a {
      LosesLater(v0, R0, v1, R1, v2, R2, ts);
    } else if b {
      LosesEarlier(v0, R0, v1, R1, v2, R2, ts);
    } else if Ready(v0, R0, ts) {
      KeptIsReady(v0, R0, v1, R1, ts);
      KeptTrans(v0, R0, v1, R1, v2, R2, ts);
    }
  }

  lemma {:induction false} KeptIsReady(v0: Value, R0: Patch, v1: Value, R1: Patch, ts: Path)
    requires Kept(v0, R0, v1, R1, ts)
    ensures Ready(v1, R1, ts)
  {
  }

  lemma {:induction false} FadedTrans(v0: Value, R0: Patch, v1: Value, R1: Patch, v2: Value, R2: Patch, ts: Path)
    requires Faded(v0, R0, v1, R1, ts) && Faded(v1, R1, v2, R2, ts)
    ensures Faded(v0, R0, v2, R2, ts)
  {
    hide Shows, Landing, NonNested;
    CoveredOutside(R0, R1, ts);
    OutsideTrans(R0, R1, R2, ts);
  }

  lemma {:induction false} LosesLater(v0: Value, R0: Patch, v1: Value, R1: Patch, v2: Value, R2: Patch, ts: Path)
    requires Faded(v0, R0, v1, R1, ts) && Faded(v1, R1, v2, R2, ts) && Loses(v0, R0, v1, R1, ts)
    ensures Loses(v0, R0, v2, R2, ts)
  {
    hide Shows, Landing, NonNested;
    CoveredOutside(R0, R1, ts);
    var z :| Shows(v0, R0, ts, z) && !Shows(v1, R1, ts, z);
    assert !Shows(v2, R2, ts, z);
  }

  lemma {:induction false} LosesEarlier(v0: Value, R0: Patch, v1: Value, R1: Patch, v2: Value, R2: Patch, ts: Path)
    requires Faded(v0, R0, v1, R1, ts) && Loses(v1, R1, v2, R2, ts)
    ensures Loses(v0, R0, v2, R2, ts)
  {
    hide Shows, Landing, NonNested;
    CoveredOutside(R0, R1, ts);
    assert Held(R0, ts) ==> R1 == R0;
    var z :| Shows(v1, R1, ts, z) && !Shows(v2, R2, ts, z);
    assert Shows(v0, R0, ts, z);
  }

  lemma {:induction false} RecordedWithFrame(R: Patch, ts: Path, kept: Value)
    requires NonNested(R)
    ensures NonNested(RecordedWith(R, ts, kept)) && AgreeOutside(R, RecordedWith(R, ts, kept), ts)
    ensures !Covered(R, ts) ==> ts in RecordedWith(R, ts, kept)
    ensures ts !in R && !Covered(R, ts) ==> RecordedWith(R, ts, kept)[ts] == kept
  {
    if !Held(R, ts) {
      forall p | p in R
        ensures !(p <= ts)
      {
        assert p <= ts ==> p == ts || p < ts;
      }
    }
  }

  /** Under a fragment anything may happen. */
  lemma {:induction false} PassedHeld(v0: Value, L: Log, v1: Value, ts: Path)
    requires NonNested(L.fragments) && Held(L.fragments, ts)
    ensures Passed(v0, L, v1, L, ts, false)
  {
    OnlyItself(v1, L.fragments, ts);
  }

  lemma {:induction false} OnlyItself(v: Value, R: Patch, ts: Path)
    requires NonNested(R)
    ensures ts in R ==> Landing(v, R, ts)
  {
    if ts in R {
      forall p | p in R && ts <= p
        ensures Lands(v, p[|ts|..], R[p])
      {
        assert p == ts;
      }
    }
  }

  /** Once the value at `ts` is recorded, anything may replace it. */
  lemma {:induction false} PassedSelf(v0: Value, L0: Log, v1: Value, L1: Log, ts: Path, kept: Value)
    requires Sure(v0, L0.fragments, ts) && RecordedSo(v0, L0, L1, ts, kept)
    ensures Passed(v0, L0, v1, L1, ts, false)
  {
    hide RecordedSo, Sure, Faded, Loses, Kept, Ready, Held;
    if Held(L0.fragments, ts) {
      HeldSelf(v0, L0, v1, L1, ts, kept);
    } else {
      FadedSelf(v0, L0, v1, L1, ts, kept);
      if Ready(v0, L0.fragments, ts) {
        KeptSelf(v0, L0, v1, L1, ts, kept);
      }
    }
  }

  lemma {:induction false} HeldSelf(v0: Value, L0: Log, v1: Value, L1: Log, ts: Path, kept: Value)
    requires Held(L0.fragments, ts) && Sure(v0, L0.fragments, ts) && RecordedSo(v0, L0, L1, ts, kept)
    ensures Passed(v0, L0, v1, L1, ts, false)
  {
    hide Shows, ZeroAt, Landing, Overlay.Fits, Passed;
    assert L1 == L0;
    PassedHeld(v0, L0, v1, ts);
  }

  lemma {:induction false} FadedSelf(v0: Value, L0: Log, v1: Value, L1: Log, ts: Path, kept: Value)
    requires Sure(v0, L0.fragments, ts) && RecordedSo(v0, L0, L1, ts, kept) && !Held(L0.fragments, ts)
    ensures Faded(v0, L0.fragments, v1, L1.fragments, ts)
  {
    RecordedWithFrame(L0.fragments, ts, kept);
    OnlyItself(v1, L1.fragments, ts);
    hide RecordedWith, Landing, RecordedAt, Overlay.Fits;
  }

  lemma {:induction false} KeptSelf(v0: Value, L0: Log, v1: Value, L1: Log, ts: Path, kept: Value)
    requires Ready(v0, L0.fragments, ts) && RecordedSo(v0, L0, L1, ts, kept) && !Held(L0.fragments, ts)
    ensures Kept(v0, L0.fragments, v1, L1.fragments, ts) && L1.aborted == L0.aborted
  {
    RecordSelf(v0, L0.fragments, v1, ts);
  }

  lemma {:induction false} SureMember(m: map<string, Value>, R: Patch, ts: Path, k: string)
    requires Sure(Obj(m), R, ts) && k in m
    ensures Sure(m[k], R, ts + [k])
  {
    CoveredChild(R, ts, k);
    if Landing(Obj(m), R, ts) {
      LandingMember(m, R, ts, k);
    }
  }

  /** Two objects differ at most at one member. */
  ghost predicate SameBut(m: map<string, Value>, n: map<string, Value>, k: string) {
    forall j :: j != k ==> (j in m <==> j in n) && (j in m ==> m[j] == n[j])
  }

  /** The writes below an object land after a change at one member, if those at that member do. */
  lemma {:induction false} LandingOthers(m: map<string, Value>, n: map<string, Value>, R0: Patch, R1: Patch, ts: Path, k: string)
    requires AgreeOutside(R0, R1, ts + [k]) && Landing(Obj(m), R0, ts)
    requires SameBut(m, n, k)
    requires forall p :: p in R1 && ts + [k] <= p ==> Lands(Obj(n), p[|ts|..], R1[p])
    ensures Landing(Obj(n), R1, ts)
  {
    forall p | p in R1 && ts <= p
      ensures Lands(Obj(n), p[|ts|..], R1[p])
    {
      PrefixStep(ts, k, p);
      if !(ts + [k] <= p) && p != ts {
        var j := p[|ts|..][0];
        assert p in R0 && Lands(Obj(m), p[|ts|..], R1[p]);
        assert j != k;
      }
    }
  }

  /** What comes back below the other members is not changed. */
  lemma {:induction false} ShowsOthers(m: map<string, Value>, n: map<string, Value>, R0: Patch, R1: Patch, ts: Path, k: string, z: Path)
    requires AgreeOutside(R0, R1, ts + [k]) && SameBut(m, n, k) && ts !in R0
    requires z != [] && z[0] != k
    ensures Shows(Obj(n), R1, ts, z) <==> Shows(Obj(m), R0, ts, z)
  {
    var j := z[0];
    OutsideParent(R0, R1, ts, k);
    SiblingAgree(R0, R1, ts, k, j);
    assert ts + [j] <= ts + [j];
    if j in m {
      AgreeShows(m[j], R0, R1, ts + [j], z[1..]);
    }
  }

  /** Changing one member of an object. */
  lemma {:induction false} PassedMember(m: map<string, Value>, L0: Log, k: string, c1: Value, L1: Log, ts: Path, lost: bool)
    requires Sure(Obj(m), L0.fragments, ts) && k in m && Passed(m[k], L0, c1, L1, ts + [k], lost)
    ensures Passed(Obj(m), L0, Obj(m[k := c1]), L1, ts, lost)
  {
    var R0, R1, n := L0.fragments, L1.fragments, m[k := c1];
    OutsideParent(R0, R1, ts, k);
    HeldOutside(R0, R1, ts, k);
    HeldOutside(R1, R0, ts, k);
    if Held(R0, ts) {
      PassedHeld(Obj(m), L0, Obj(n), ts);
    } else {
      FadedMember(m, R0, k, c1, R1, ts);
      if lost {
        var z :| Shows(m[k], R0, ts + [k], z) && !Shows(c1, R1, ts + [k], z);
        assert ([k] + z)[1..] == z;
        assert Shows(Obj(m), R0, ts, [k] + z) && !Shows(Obj(n), R1, ts, [k] + z);
      } else if Ready(Obj(m), R0, ts) {
        ReadyMember(m, R0, ts, k);
        StepMember(m, R0, k, c1, R1, ts);
      }
    }
  }

  lemma {:induction false} FadedMember(m: map<string, Value>, R0: Patch, k: string, c1: Value, R1: Patch, ts: Path)
    requires Sure(Obj(m), R0, ts) && k in m && Faded(m[k], R0, c1, R1, ts + [k]) && !Held(R0, ts)
    ensures Faded(Obj(m), R0, Obj(m[k := c1]), R1, ts)
  {
    var n := m[k := c1];
    OutsideParent(R0, R1, ts, k);
    HeldOutside(R0, R1, ts, k);
    HeldOutside(R1, R0, ts, k);
    assert Landing(c1, R1, ts + [k]);
    forall p | p in R1 && ts + [k] <= p
      ensures Lands(Obj(n), p[|ts|..], R1[p])
    {
      BelowChild(ts, k, p);
      assert Lands(c1, p[|ts + [k]|..], R1[p]);
    }
    LandingOthers(m, n, R0, R1, ts, k);
    forall z
      ensures Shows(Obj(n), R1, ts, z) ==> Shows(Obj(m), R0, ts, z)
    {
      if z != [] && z[0] == k {
        assert Shows(c1, R1, ts + [k], z[1..]) ==> Shows(m[k], R0, ts + [k], z[1..]);
      } else if z != [] {
        ShowsOthers(m, n, R0, R1, ts, k, z);
      }
    }
  }

  /** Recording a member and removing it. A member "0" is lost unless the object is under a fragment already. */
  lemma {:induction false} PassedRemove(m: map<string, Value>, L0: Log, k: string, L1: Log, ts: Path, kept: Value)
    requires Sure(Obj(m), L0.fragments, ts) && k in m && RecordedSo(m[k], L0, L1, ts + [k], kept)
    requires k == "0" ==> Held(L0.fragments, ts) || (ts + [k] !in L0.fragments && kept == Arr([]))
    ensures Passed(Obj(m), L0, Obj(m - {k}), L1, ts, k == "0" && !Held(L0.fragments, ts))
  {
    var R0, R1, n := L0.fragments, L1.fragments, m - {k};
    RecordedWithFrame(R0, ts + [k], kept);
    OutsideParent(R0, R1, ts, k);
    HeldOutside(R0, R1, ts, k);
    if Held(R0, ts) {
      PassedHeld(Obj(m), L0, Obj(n), ts);
    } else {
      FadedRemove(m, R0, k, R1, ts, kept);
      if k == "0" {
        assert Shows(Obj(m), R0, ts, []) && !Shows(Obj(n), R1, ts, []);
      } else if Ready(Obj(m), R0, ts) {
        ReadyMember(m, R0, ts, k);
        StepRemove(m, R0, k, ts);
      }
    }
  }

  lemma {:induction false} FadedRemove(m: map<string, Value>, R0: Patch, k: string, R1: Patch, ts: Path, kept: Value)
    requires Sure(Obj(m), R0, ts) && k in m && R1 == RecordedWith(R0, ts + [k], kept) && !Held(R0, ts)
    requires ts + [k] in R0 || forall z :: ZeroAt(kept, z) ==> Shows(m[k], R0, ts + [k], z)
    requires k == "0" ==> ts + [k] !in R0 && kept == Arr([])
    ensures Faded(Obj(m), R0, Obj(m - {k}), R1, ts)
  {
    var n := m - {k};
    RecordedWithFrame(R0, ts + [k], kept);
    OutsideParent(R0, R1, ts, k);
    HeldOutside(R0, R1, ts, k);
    HeldOutside(R1, R0, ts, k);
    assert ts + [k] in R1;
    forall p | p in R1 && ts + [k] <= p
      ensures Lands(Obj(n), p[|ts|..], R1[p])
    {
      assert p == ts + [k];
      assert p[|ts|..] == [k];
    }
    LandingOthers(m, n, R0, R1, ts, k);
    forall z
      ensures Shows(Obj(n), R1, ts, z) ==> Shows(Obj(m), R0, ts, z)
    {
      if z != [] && z[0] == k {
        assert ts + [k] !in R0 ==> R1[ts + [k]] == kept;
      } else if z != [] {
        ShowsOthers(m, n, R0, R1, ts, k, z);
      }
    }
  }

  /** Recording a member and replacing it. */
  lemma {:induction false} PassedReplace(m: map<string, Value>, L0: Log, k: string, c1: Value, L1: Log, ts: Path, kept: Value)
    requires Sure(Obj(m), L0.fragments, ts) && k in m && RecordedSo(m[k], L0, L1, ts + [k], kept)
    ensures Passed(Obj(m), L0, Obj(m[k := c1]), L1, ts, false)
  {
    SureMember(m, L0.fragments, ts, k);
    PassedSelf(m[k], L0, c1, L1, ts + [k], kept);
    PassedMember(m, L0, k, c1, L1, ts, false);
  }

  /** Changing one item of an array. */
  lemma {:induction false} PassedItem(items: seq<Value>, L0: Log, i: nat, c1: Value, L1: Log, ts: Path, lost: bool)
    requires Sure(Arr(items), L0.fragments, ts) && i < |items| && Passed(items[i], L0, c1, L1, ts + [Decimal(i)], lost)
    requires items[i].Obj? ==> c1.Obj?
    requires !items[i].Obj? ==> (ts + [Decimal(i)] in L1.fragments <==> ts + [Decimal(i)] in L0.fragments)
    ensures Passed(Arr(items), L0, Arr(items[i := c1]), L1, ts, lost)
  {
    var R0, R1, k, out := L0.fragments, L1.fragments, Decimal(i), items[i := c1];
    OutsideParent(R0, R1, ts, k);
    HeldOutside(R0, R1, ts, k);
    HeldOutside(R1, R0, ts, k);
    ParseDecimal(i);
    if Held(R0, ts) {
      PassedHeld(Arr(items), L0, Arr(out), ts);
    } else {
      FadedItem(items, R0, i, c1, R1, ts);
      if lost {
        var z :| Shows(items[i], R0, ts + [k], z) && !Shows(c1, R1, ts + [k], z);
        assert ([k] + z)[1..] == z;
        assert Shows(Arr(items), R0, ts, [k] + z) && !Shows(Arr(out), R1, ts, [k] + z);
      } else if Ready(Arr(items), R0, ts) {
        ReadyItem(items, R0, ts, i);
        ItemStaysObject(items, R0, i, c1, R1, ts);
        StepItem(items, R0, i, c1, R1, ts);
      }
    }
  }

  lemma {:induction false} ItemStaysObject(items: seq<Value>, R0: Patch, i: nat, c1: Value, R1: Patch, ts: Path)
    requires i < |items| && Fits(Arr(items), R0, ts) && !Held(R0, ts)
    requires items[i].Obj? ==> c1.Obj?
    requires !items[i].Obj? ==> (ts + [Decimal(i)] in R1 <==> ts + [Decimal(i)] in R0)
    ensures ts + [Decimal(i)] in R1 ==> c1.Obj?
  {
    var p := ts + [Decimal(i)];
    if p in R1 && !items[i].Obj? {
      assert NextFits(Arr(items), p, ts);
      ParseDecimal(i);
    }
  }

  lemma {:induction false} FadedItem(items: seq<Value>, R0: Patch, i: nat, c1: Value, R1: Patch, ts: Path)
    requires Sure(Arr(items), R0, ts) && i < |items| && Faded(items[i], R0, c1, R1, ts + [Decimal(i)]) && !Held(R0, ts)
    ensures Faded(Arr(items), R0, Arr(items[i := c1]), R1, ts)
  {
    var k, out := Decimal(i), items[i := c1];
    OutsideParent(R0, R1, ts, k);
    HeldOutside(R0, R1, ts, k);
    HeldOutside(R1, R0, ts, k);
    assert Landing(c1, R1, ts + [k]);
    LandingItems(items, R0, i, c1, R1, ts);
    forall z
      ensures Shows(Arr(out), R1, ts, z) ==> Shows(Arr(items), R0, ts, z)
    {
      if z != [] && NamesItem(z[0], |items|) {
        ShowsItem(items, R0, i, c1, R1, ts, z);
      }
    }
  }

  lemma {:induction false} ShowsItem(items: seq<Value>, R0: Patch, i: nat, c1: Value, R1: Patch, ts: Path, z: Path)
    requires i < |items| && AgreeOutside(R0, R1, ts + [Decimal(i)]) && ts !in R0
    requires forall y :: Shows(c1, R1, ts + [Decimal(i)], y) ==> Shows(items[i], R0, ts + [Decimal(i)], y)
    requires z != [] && NamesItem(z[0], |items|)
    ensures Shows(Arr(items[i := c1]), R1, ts, z) ==> Shows(Arr(items), R0, ts, z)
  {
    var j := ParseIndex(z[0]).value;
    OutsideParent(R0, R1, ts, Decimal(i));
    ParseDecimal(i);
    if j != i {
      SiblingAgree(R0, R1, ts, Decimal(i), z[0]);
      AgreeShows(items[j], R0, R1, ts + [z[0]], z[1..]);
    } else {
      assert Shows(c1, R1, ts + [Decimal(i)], z[1..]) ==> Shows(items[i], R0, ts + [Decimal(i)], z[1..]);
    }
  }

  lemma {:induction false} LandingItems(items: seq<Value>, R0: Patch, i: nat, c1: Value, R1: Patch, ts: Path)
    requires AgreeOutside(R0, R1, ts + [Decimal(i)]) && Landing(Arr(items), R0, ts) && i < |items|
    requires Landing(c1, R1, ts + [Decimal(i)])
    ensures Landing(Arr(items[i := c1]), R1, ts)
  {
    var k, out := Decimal(i), items[i := c1];
    ParseDecimal(i);
    forall p | p in R1 && ts <= p
      ensures Lands(Arr(out), p[|ts|..], R1[p])
    {
      PrefixStep(ts, k, p);
      if ts + [k] <= p {
        BelowChild(ts, k, p);
        assert Lands(c1, p[|ts + [k]|..], R1[p]);
      } else if p != ts {
        assert p in R0 && Lands(Arr(items), p[|ts|..], R1[p]);
        assert p[|ts|..][0] != k;
      }
    }
  }

  /** A value nothing is recorded at or below, or that is under a fragment, is ready for any step. */
  lemma {:induction false} FreshIsReady(v: Value, R: Patch, ts: Path)
    requires NonNested(R) && (Held(R, ts) || Clear(R, ts))
    ensures Ready(v, R, ts) && Sure(v, R, ts)
  {
    OnlyItself(v, R, ts);
    if Clear(R, ts) {
      ClearOverlay(v, R, ts);
    }
  }

  // ---------- why "0" is special ----------

  /** The object at `rel` inside a value. */
  ghost predicate ObjectAt(v: Value, rel: Path, m: map<string, Value>)
    decreases |rel|
  {
    if rel == [] then v == Obj(m)
    else match v
      case Obj(n) => rel[0] in n && ObjectAt(n[rel[0]], rel[1..], m)
      case Arr(items) =>
        ParseIndex(rel[0]).Some? && ParseIndex(rel[0]).value < |items|
        && ObjectAt(items[ParseIndex(rel[0]).value], rel[1..], m)
      case _ => false
  }

  /** The value with member `k` of the object at `rel` removed. */
  ghost function Without(v: Value, rel: Path, m: map<string, Value>, k: string): Value
    requires ObjectAt(v, rel, m)
    decreases |rel|
  {
    if rel == [] then Obj(m - {k})
    else match v
      case Obj(n) => Obj(n[rel[0] := Without(n[rel[0]], rel[1..], m, k)])
      case Arr(items) =>
        var i := ParseIndex(rel[0]).value;
        Arr(items[i := Without(items[i], rel[1..], m, k)])
  }

  /** set_pointer undoes the removal of a member, anywhere in a document, exactly when the member is not named "0". */
  lemma {:induction false} RemovalUndoneIff(v: Value, rel: Path, m: map<string, Value>, k: string)
    requires ObjectAt(v, rel, m) && k in m
    ensures SetParts(Without(v, rel, m, k), rel + [k], m[k]) == Ok(v) <==> k != "0"
    decreases |rel|
  {
    var parts := rel + [k];
    if rel == [] {
      assert parts == [k];
      assert (m - {k})[k := m[k]] == m;
      if k == "0" {
        assert SetParts(Obj(m - {k}), [], m[k]) == Ok(m[k]);
        assert m[k] != Obj(m);
      }
    } else {
      assert parts[0] == rel[0] && parts[1..] == rel[1..] + [k];
      match v
      case Obj(n) =>
        RemovalUndoneIff(n[rel[0]], rel[1..], m, k);
        var child := Without(n[rel[0]], rel[1..], m, k);
        var out := SetParts(child, rel[1..] + [k], m[k]);
        assert out.Ok? ==> n[rel[0] := child][rel[0] := out.value] == n[rel[0] := out.value];
        assert n[rel[0] := n[rel[0]]] == n;
        assert out.Ok? && n[rel[0] := out.value] == n ==> out.value == n[rel[0]];
      case Arr(items) =>
        var i := ParseIndex(rel[0]).value;
        RemovalUndoneIff(items[i], rel[1..], m, k);
        var child := Without(items[i], rel[1..], m, k);
        var out := SetParts(child, rel[1..] + [k], m[k]);
        assert out.Ok? ==> items[i := child][i := out.value] == items[i := out.value];
        assert items[i := items[i]] == items;
        assert out.Ok? && items[i := out.value] == items ==> out.value == items[i];
    }
  }

  /** Two empty arrays, one of them named "0": writing the first replaces the object by an array,
      so writing the second fails. */
  lemma {:induction false} ZeroMemberBreaksRestore()
    ensures SetParts(SetParts(Obj(map[]), ["0"], Arr([])).value, ["a"], Arr([])) == Err(InvalidPath)
  {
    assert SetParts(Obj(map[]), ["0"], Arr([])) == Ok(Arr([]));
    assert "a"[0] == 'a' && !AllDigits("a");
  }
}
