/** The adaptation steps of projection.rs. Each records what it changes, so nothing is lost. */
module Projection {
  import opened Json
  import opened Pointer
  import opened Overlay
  import opened Recovery
  import opened Steps
  import opened Damage
  import opened Languages
  import opened XmlText
  import opened Rules
  import opened Surface

  /** Objects nest at most `d` deep. */
  ghost predicate Within(v: Value, d: nat)
    decreases v
  {
    match v
    case Obj(m) => d > 0 && forall k :: k in m ==> Within(m[k], d - 1)
    case Arr(items) => forall i :: 0 <= i < |items| ==> Within(items[i], d)
    case _ => true
  }

  ghost predicate Adaptable(v: Value, L: Log, ts: Path) {
    Sure(v, L.fragments, ts)
  }

  // ---------- which members the steps on one object have recorded ----------

  /** A member is either as it was and not newly recorded, or it shrank and is recorded. */
  ghost predicate MemberMarked(a: Value, b: Value, p: Path, R0: Patch, R1: Patch) {
    (a == b || (Size(b) < Size(a) && p in R1)) && (a == b && p in R1 ==> p in R0)
  }

  /** Unless the object itself is under a fragment: no member is new, every member is recorded or untouched below,
      and the fragments tell which members have changed. */
  ghost predicate Marks(o: Members, R0: Patch, out: Members, R1: Patch, ts: Path) {
    Held(R1, ts)
    || (out.Keys <= o.Keys
        && (forall k :: ts + [k] in R1 || Agree(R0, R1, ts + [k]))
        && (forall k :: k in o ==> (k in out && out[k] == o[k]) || ts + [k] in R1)
        && (forall k :: k in out ==> (Nests(out[k]) ==> Nests(o[k])) && MemberMarked(o[k], out[k], ts + [k], R0, R1)))
  }

  lemma {:induction false} MarksTrans(a: Members, R0: Patch, b: Members, R1: Patch, c: Members, R2: Patch, ts: Path)
    requires Marks(a, R0, b, R1, ts) && Marks(b, R1, c, R2, ts)
    requires Held(R1, ts) ==> R2 == R1
    ensures Marks(a, R0, c, R2, ts)
  {
    if !Held(R1, ts) && !Held(R2, ts) {
      forall k
        ensures ts + [k] in R2 || Agree(R0, R2, ts + [k])
        ensures ts + [k] in R1 ==> ts + [k] in R2
      {
        assert ts + [k] <= ts + [k];
        assert ts + [k] in R1 || Agree(R0, R1, ts + [k]);
        assert ts + [k] in R2 || Agree(R1, R2, ts + [k]);
      }
      forall k | k in a
        ensures (k in c && c[k] == a[k]) || ts + [k] in R2
      {
        assert (k in b && b[k] == a[k]) || ts + [k] in R1;
      }
      forall k | k in c
        ensures (Nests(c[k]) ==> Nests(a[k])) && MemberMarked(a[k], c[k], ts + [k], R0, R2)
      {
        assert MemberMarked(a[k], b[k], ts + [k], R0, R1) && MemberMarked(b[k], c[k], ts + [k], R1, R2);
      }
    }
  }

  /** One recording at a member, which is then removed or replaced. */
  lemma {:induction false} MarksOne(o: Members, R0: Patch, out: Members, k: string, ts: Path, kept: Value)
    requires NonNested(R0) && SameBut(o, out, k) && k in o
    requires k in out ==> (Nests(out[k]) ==> Nests(o[k])) && Size(out[k]) < Size(o[k])
    ensures Marks(o, R0, out, RecordedWith(R0, ts + [k], kept), ts)
  {
    var R1 := RecordedWith(R0, ts + [k], kept);
    RecordedWithFrame(R0, ts + [k], kept);
    HeldOutside(R0, R1, ts, k);
    if !Held(R1, ts) {
      forall j
        ensures ts + [j] in R1 || Agree(R0, R1, ts + [j])
        ensures j != k ==> Agree(R0, R1, ts + [j])
      {
        if j != k {
          SiblingAgree(R0, R1, ts, k, j);
        }
      }
      forall j | j in out
        ensures (Nests(out[j]) ==> Nests(o[j])) && MemberMarked(o[j], out[j], ts + [j], R0, R1)
      {
        assert ts + [j] <= ts + [j];
      }
    }
  }

  // ---------- one step on an object ----------

  /** A step on an object: what it makes of the object and of the fragments, how deep the object is afterwards, whether
      the object itself may have been recorded, and whether a member "0" is lost. */
  ghost predicate Went(o: Members, L0: Log, out: Members, L1: Log, ts: Path, d: nat, own: bool, lost: bool) {
    && Passed(Obj(o), L0, Obj(out), L1, ts, lost)
    && Within(Obj(out), d)
    && Marks(o, L0.fragments, out, L1.fragments, ts)
    && (ts in L1.fragments <==> ts in L0.fragments || (own && !Covered(L0.fragments, ts)))
  }

  /** A step that records members only, and loses nothing. */
  ghost predicate Sound(o: Members, L0: Log, out: Members, L1: Log, ts: Path, d: nat) {
    Went(o, L0, out, L1, ts, d, false, false)
  }

  /** Two steps after each other are one step. */
  lemma {:induction false} WentTrans(a: Members, L0: Log, b: Members, L1: Log, c: Members, L2: Log, ts: Path, d: nat,
                                     own: bool, lost: bool, own': bool, lost': bool)
    requires Went(a, L0, b, L1, ts, d, own, lost) && Went(b, L1, c, L2, ts, d, own', lost')
    ensures Went(a, L0, c, L2, ts, d, own || own', lost || lost')
    ensures Adaptable(Obj(c), L2, ts) && Within(Obj(c), d)
  {
    PassedTrans(Obj(a), L0, Obj(b), L1, Obj(c), L2, ts, lost, lost');
    PassedFaded(Obj(a), L0, Obj(b), L1, ts, lost);
    PassedFaded(Obj(b), L1, Obj(c), L2, ts, lost');
    CoveredOutside(L0.fragments, L1.fragments, ts);
    hide Passed, Marks;
    MarksTrans(a, L0.fragments, b, L1.fragments, c, L2.fragments, ts);
  }

  lemma {:induction false} PassedFaded(v0: Value, L0: Log, v1: Value, L1: Log, ts: Path, lost: bool)
    requires Passed(v0, L0, v1, L1, ts, lost)
    ensures AgreeOutside(L0.fragments, L1.fragments, ts) && Sure(v1, L1.fragments, ts)
    ensures Held(L0.fragments, ts) ==> L1.fragments == L0.fragments
  {
  }

  /** What follows from a step. */
  lemma {:induction false} WentGives(a: Members, L0: Log, b: Members, L1: Log, ts: Path, d: nat, own: bool, lost: bool)
    requires Went(a, L0, b, L1, ts, d, own, lost)
    ensures Adaptable(Obj(b), L1, ts) && Within(Obj(b), d)
    ensures Held(L1.fragments, ts) <==> Held(L0.fragments, ts) || own
    ensures ts in L1.fragments <==> ts in L0.fragments || (own && !Covered(L0.fragments, ts))
    ensures Passed(Obj(a), L0, Obj(b), L1, ts, lost) && Marks(a, L0.fragments, b, L1.fragments, ts)
  {
    PassedFaded(Obj(a), L0, Obj(b), L1, ts, lost);
    CoveredOutside(L0.fragments, L1.fragments, ts);
  }

  lemma {:induction false} SoundGives(a: Members, L0: Log, b: Members, L1: Log, ts: Path, d: nat)
    requires Sound(a, L0, b, L1, ts, d)
    ensures Adaptable(Obj(b), L1, ts) && Within(Obj(b), d)
    ensures Held(L1.fragments, ts) <==> Held(L0.fragments, ts)
  {
    WentGives(a, L0, b, L1, ts, d, false, false);
  }

  lemma {:induction false} SoundRefl(a: Members, L: Log, ts: Path, d: nat)
    requires Adaptable(Obj(a), L, ts) && Within(Obj(a), d)
    ensures Sound(a, L, a, L, ts, d)
  {
    PassedRefl(Obj(a), L, ts);
  }

  /** Two sound steps after each other are one. */
  lemma {:induction false} Chain(a: Members, L0: Log, b: Members, L1: Log, c: Members, L2: Log, ts: Path, d: nat)
    requires Sound(a, L0, b, L1, ts, d) && Sound(b, L1, c, L2, ts, d)
    ensures Sound(a, L0, c, L2, ts, d) && Adaptable(Obj(c), L2, ts) && Within(Obj(c), d)
  {
    WentTrans(a, L0, b, L1, c, L2, ts, d, false, false, false, false);
  }

  /** Nothing is recorded yet at or below an empty array named "0". */
  ghost predicate ZeroFresh(o: Members, L: Log, ts: Path) {
    "0" in o && o["0"] == Arr([]) ==> Held(L.fragments, ts) || Clear(L.fragments, ts + ["0"])
  }

  /** Removing a member, as one step. */
  lemma {:induction false} RemoveSound(m: Members, L0: Log, k: string, L1: Log, ts: Path, d: nat, kept: Value)
    requires Adaptable(Obj(m), L0, ts) && Within(Obj(m), d) && k in m && RecordedSo(m[k], L0, L1, ts + [k], kept)
    requires k == "0" ==> m[k] == Arr([]) && ZeroFresh(m, L0, ts)
    ensures Went(m, L0, m - {k}, L1, ts, d, false, k == "0" && !Held(L0.fragments, ts))
  {
    var R0, R1 := L0.fragments, L1.fragments;
    if k == "0" && !Held(R0, ts) {
      EmptyKept(m, L0, L1, ts, kept);
    }
    PassedRemove(m, L0, k, L1, ts, kept);
    MarksOne(m, R0, m - {k}, k, ts, kept);
    RecordedWithFrame(R0, ts + [k], kept);
    OutsideParent(R0, R1, ts, k);
  }

  /** What is recorded for an empty array named "0" is that array. */
  lemma {:induction false} EmptyKept(m: Members, L0: Log, L1: Log, ts: Path, kept: Value)
    requires NonNested(L0.fragments) && "0" in m && m["0"] == Arr([]) && !Held(L0.fragments, ts)
    requires Clear(L0.fragments, ts + ["0"]) && RecordedSo(m["0"], L0, L1, ts + ["0"], kept)
    ensures kept == Arr([]) && ts + ["0"] !in L0.fragments
  {
    var R, p := L0.fragments, ts + ["0"];
    CoveredChild(R, ts, "0");
    assert p <= p;
    ClearOverlay(m["0"], R, p);
    RecordedWithFrame(R, p, kept);
    RecordedWithFrame(R, p, Arr([]));
  }

  lemma {:induction false} ReplaceSound(m: Members, L0: Log, k: string, x: Value, L1: Log, ts: Path, d: nat, kept: Value)
    requires Adaptable(Obj(m), L0, ts) && Within(Obj(m), d) && k in m && Within(x, d - 1)
    requires (Nests(x) ==> Nests(m[k])) && Size(x) < Size(m[k])
    requires RecordedSo(m[k], L0, L1, ts + [k], kept)
    ensures Sound(m, L0, m[k := x], L1, ts, d)
  {
    var R0, R1 := L0.fragments, L1.fragments;
    PassedReplace(m, L0, k, x, L1, ts, kept);
    MarksOne(m, R0, m[k := x], k, ts, kept);
    RecordedWithFrame(R0, ts + [k], kept);
    OutsideParent(R0, R1, ts, k);
  }

  /** What Record asks for at a member. */
  lemma {:induction false} MemberRecordable(m: Members, L: Log, k: string, ts: Path)
    requires Adaptable(Obj(m), L, ts) && k in m
    ensures Covered(L.fragments, ts + [k]) || Landing(m[k], L.fragments, ts + [k])
  {
    SureMember(m, L.fragments, ts, k);
  }

  lemma {:induction false} EscapePlain(key: string)
    requires '~' !in key && '/' !in key
    ensures Escape(key) == key
  {
    if key != "" {
      EscapeCons(key);
      assert key[0] in key && forall c :: c in key[1..] ==> c in key;
      EscapePlain(key[1..]);
    }
  }

  lemma {:induction false} PlainNames()
    ensures Escape("@uri") == "@uri" && Escape("#text") == "#text" && Escape("compliance") == "compliance"
    ensures Escape("sourceCitation") == "sourceCitation" && Escape("common:generalComment") == "common:generalComment"
  {
    hide Escape;
    EscapePlain("@uri");
    EscapePlain("#text");
    EscapePlain("compliance");
    EscapePlain("sourceCitation");
    EscapePlain("common:generalComment");
  }

  lemma {:induction false} EncodeChild(ts: Path, key: string)
    ensures Encode(ts + [key]) == Join(Encode(ts), Escape(key))
  {
    assert (ts + [key])[..|ts|] == ts;
  }

  // ---------- the two ways a member is changed ----------

  /** A member named "0" is removed only when it is an empty array, which nothing has recorded yet. */
  ghost predicate Removable(node: Members, key: string, L: Log, ts: Path) {
    key == "0" && key in node ==> node[key] == Arr([]) && ZeroFresh(node, L, ts)
  }

  /** Records a member and removes it. set_pointer cannot put a member named "0" back. */
  method RemoveKey(node: Members, path: string, ghost ts: Path, key: string, rule: string, recovery: RecoveryBuilder, ghost d: nat)
    returns (out: Members)
    requires recovery.Valid() && path == Encode(ts) && Adaptable(Obj(node), recovery.State(), ts)
    requires Within(Obj(node), d) && Removable(node, key, recovery.State(), ts)
    modifies recovery
    ensures recovery.Valid()
    ensures Went(node, old(recovery.State()), out, recovery.State(), ts, d, false,
                 key == "0" && key in node && !Held(old(recovery.State()).fragments, ts))
    ensures key != "0" ==> Sound(node, old(recovery.State()), out, recovery.State(), ts, d)
    ensures out == node - {key}
  {
    hide Went, Adaptable, Within, Overlay.Fits, Overlay.Covered, RecordedWith, RecordedAt, Landing, Shows, ZeroAt, ZeroFresh;
    ghost var L := recovery.State();
    if key !in node {
      SoundRefl(node, L, ts, d);
      assert node - {key} == node;
      return node;
    }
    EncodeChild(ts, key);
    MemberRecordable(node, L, key, ts);
    ghost var kept := recovery.Record(Join(path, Escape(key)), ts + [key], node[key], rule);
    RemoveSound(node, L, key, recovery.State(), ts, d, kept);
    out := node - {key};
  }

  /** Records a member and replaces it by something smaller. */
  method ReplaceKey(node: Members, path: string, ghost ts: Path, key: string, fieldPath: string, value: Value, rule: string,
                    recovery: RecoveryBuilder, ghost d: nat)
    returns (out: Members)
    requires recovery.Valid() && path == Encode(ts) && Adaptable(Obj(node), recovery.State(), ts)
    requires key in node && fieldPath == Join(path, Escape(key))
    requires Within(Obj(node), d) && Within(value, d - 1)
    requires (Nests(value) ==> Nests(node[key])) && Size(value) < Size(node[key])
    modifies recovery
    ensures recovery.Valid() && Sound(node, old(recovery.State()), out, recovery.State(), ts, d)
    ensures out == node[key := value]
  {
    hide Sound, Adaptable, Within, Overlay.Fits, Overlay.Covered, RecordedWith, RecordedAt, Landing, Shows, ZeroAt, Size;
    EncodeChild(ts, key);
    ghost var L := recovery.State();
    MemberRecordable(node, L, key, ts);
    ghost var kept := recovery.Record(fieldPath, ts + [key], node[key], rule);
    ReplaceSound(node, L, key, value, recovery.State(), ts, d, kept);
    out := node[key := value];
  }

  /** Records a whole object and replaces it. */
  method ReplaceSelf(node: Members, path: string, ghost ts: Path, out: Members, rule: string, recovery: RecoveryBuilder, ghost d: nat)
    requires recovery.Valid() && path == Encode(ts) && Adaptable(Obj(node), recovery.State(), ts)
    requires Within(Obj(out), d)
    modifies recovery
    ensures recovery.Valid() && Went(node, old(recovery.State()), out, recovery.State(), ts, d, true, false)
  {
    hide Adaptable, Within, Overlay.Fits, Overlay.Covered, RecordedWith, RecordedAt, Landing, Shows, ZeroAt, Went;
    ghost var L := recovery.State();
    SelfRecordable(node, L, ts);
    ghost var kept := recovery.Record(path, ts, Obj(node), rule);
    assert Held(L.fragments, ts) || forall z :: ZeroAt(kept, z) ==> Shows(Obj(node), L.fragments, ts, z);
    SelfWent(node, L, out, recovery.State(), ts, d, kept);
  }

  lemma SelfRecordable(node: Members, L: Log, ts: Path)
    requires Adaptable(Obj(node), L, ts)
    ensures Covered(L.fragments, ts) || Landing(Obj(node), L.fragments, ts)
  {
  }

  lemma {:induction false} SelfWent(node: Members, L0: Log, out: Members, L1: Log, ts: Path, d: nat, kept: Value)
    requires Adaptable(Obj(node), L0, ts) && Within(Obj(out), d) && RecordedSo(Obj(node), L0, L1, ts, kept)
    ensures Went(node, L0, out, L1, ts, d, true, false)
  {
    PassedSelf(Obj(node), L0, Obj(out), L1, ts, kept);
    hide Passed;
    RecordedWithFrame(L0.fragments, ts, kept);
    CoveredOutside(L0.fragments, L1.fragments, ts);
  }

  method RemoveKeys(node: Members, path: string, ghost ts: Path, keys: seq<string>, rule: string, recovery: RecoveryBuilder, ghost d: nat)
    returns (out: Members)
    requires recovery.Valid() && path == Encode(ts) && Adaptable(Obj(node), recovery.State(), ts)
    requires Within(Obj(node), d) && forall k :: k in keys ==> Removable(node, k, recovery.State(), ts)
    modifies recovery
    ensures recovery.Valid()
    ensures Went(node, old(recovery.State()), out, recovery.State(), ts, d, false,
                 "0" in keys && "0" in node && !Held(old(recovery.State()).fragments, ts))
    ensures "0" !in keys ==> Sound(node, old(recovery.State()), out, recovery.State(), ts, d)
    ensures out == node - Names(keys)
  {
    hide Went, Adaptable, Within, RecoveryBuilder.Valid, RecoveryBuilder.State, ZeroFresh, Held, Names, Removable, Passed, Marks;
    ghost var L0 := recovery.State();
    ghost var held := Held(L0.fragments, ts);
    out := node;
    SoundRefl(node, L0, ts, d);
    NoNames(node, keys);
    for i := 0 to |keys|
      invariant recovery.Valid()
      invariant Went(node, L0, out, recovery.State(), ts, d, false, "0" in keys[..i] && "0" in node && !held)
      invariant out == node - Names(keys[..i])
    {
      ghost var before, L := out, recovery.State();
      ghost var lost := "0" in keys[..i] && "0" in node && !held;
      WentGives(node, L0, out, L, ts, d, false, lost);
      NamesNext(node, keys, i);
      assert keys[i] in keys;
      StillRemovable(node, L0, out, L, ts, keys[i]);
      out := RemoveKey(out, path, ts, keys[i], rule, recovery, d);
      WentTrans(node, L0, before, L, out, recovery.State(), ts, d, false, lost, false, keys[i] == "0" && "0" in before && !held);
    }
    assert keys[..|keys|] == keys;
  }

  lemma {:induction false} NoNames(node: Members, keys: seq<string>)
    ensures node - Names(keys[..0]) == node && "0" !in keys[..0]
  {
    assert Names(keys[..0]) == {};
  }

  lemma {:induction false} NamesNext(node: Members, keys: seq<string>, i: nat)
    requires i < |keys|
    ensures node - Names(keys[..i]) - {keys[i]} == node - Names(keys[..i + 1])
    ensures "0" in keys[..i + 1] <==> "0" in keys[..i] || keys[i] == "0"
    ensures forall k :: k in node - Names(keys[..i]) <==> k in node && k !in keys[..i]
  {
    assert keys[..i + 1] == keys[..i] + [keys[i]];
    assert Names(keys[..i + 1]) == Names(keys[..i]) + {keys[i]};
  }

  /** What could be removed still can be after other members have been removed. */
  lemma {:induction false} StillRemovable(node: Members, L0: Log, out: Members, L1: Log, ts: Path, key: string)
    requires Marks(node, L0.fragments, out, L1.fragments, ts) && Removable(node, key, L0, ts)
    requires Held(L1.fragments, ts) <==> Held(L0.fragments, ts)
    requires forall k :: k in out ==> k in node && out[k] == node[k]
    ensures Removable(out, key, L1, ts)
  {
    var p := ts + ["0"];
    if key == "0" && key in out && !Held(L1.fragments, ts) {
      assert p <= p;
      assert MemberMarked(node["0"], out["0"], p, L0.fragments, L1.fragments);
      assert p in L1.fragments || Agree(L0.fragments, L1.fragments, p);
    }
  }

  /** The names in a set, in some order. */
  method Listed(names: set<string>) returns (keys: seq<string>)
    ensures Names(keys) == names
  {
    keys := [];
    var rest := names;
    while rest != {}
      invariant rest <= names && Names(keys) == names - rest
      decreases |rest|
    {
      var k :| k in rest;
      assert Names(keys + [k]) == Names(keys) + {k};
      keys, rest := keys + [k], rest - {k};
    }
  }

  method RemoveSet(node: Members, path: string, ghost ts: Path, names: set<string>, rule: string, recovery: RecoveryBuilder, ghost d: nat)
    returns (out: Members)
    requires recovery.Valid() && path == Encode(ts) && Adaptable(Obj(node), recovery.State(), ts)
    requires Within(Obj(node), d) && forall k :: k in names ==> Removable(node, k, recovery.State(), ts)
    modifies recovery
    ensures recovery.Valid()
    ensures Went(node, old(recovery.State()), out, recovery.State(), ts, d, false,
                 "0" in names && "0" in node && !Held(old(recovery.State()).fragments, ts))
    ensures "0" !in names ==> Sound(node, old(recovery.State()), out, recovery.State(), ts, d)
    ensures out == node - names
  {
    hide Went, Adaptable, Within, RecoveryBuilder.Valid, RecoveryBuilder.State, Removable;
    var keys := Listed(names);
    assert forall k :: k in keys <==> k in Names(keys);
    out := RemoveKeys(node, path, ts, keys, rule, recovery, d);
  }

  // ---------- steps for every category ----------

  method MapExchangeDataSource(node: Members, path: string, ghost ts: Path, recovery: RecoveryBuilder, ghost d: nat)
    returns (out: Members)
    requires recovery.Valid() && path == Encode(ts) && Adaptable(Obj(node), recovery.State(), ts)
    requires Within(Obj(node), d)
    modifies recovery
    ensures recovery.Valid() && Within(Obj(out), if IsExchangePath(path) && "referenceToDataSource" in node then d + 1 else d)
    ensures Went(node, old(recovery.State()), out, recovery.State(), ts, d + 1,
                 IsExchangePath(path) && "referenceToDataSource" in node, false)
    ensures out == ExchangeMapped(node, path)
  {
    hide Went, Adaptable, RecoveryBuilder.Valid, RecoveryBuilder.State, IsExchangePath;
    Deeper(Obj(node), d);
    if IsExchangePath(path) && "referenceToDataSource" in node {
      out := (node - {"referenceToDataSource"})
        ["referencesToDataSource" := Obj(map["referenceToDataSource" := node["referenceToDataSource"]])];
      Wrapped(node, d);
      ReplaceSelf(node, path, ts, out, "map-process-exchange-data-source", recovery, d + 1);
    } else {
      SoundRefl(node, recovery.State(), ts, d + 1);
      out := node;
    }
  }

  lemma {:induction false} Deeper(v: Value, d: nat)
    requires Within(v, d)
    ensures Within(v, d + 1)
    decreases v
  {
    match v
    case Obj(m) =>
      forall k | k in m
        ensures Within(m[k], d)
      {
        Deeper(m[k], d - 1);
      }
    case Arr(items) =>
      forall i | 0 <= i < |items|
        ensures Within(items[i], d + 1)
      {
        Deeper(items[i], d);
      }
    case _ =>
  }

  lemma {:induction false} Wrapped(o: Members, d: nat)
    requires Within(Obj(o), d) && Within(Obj(o), d + 1) && "referenceToDataSource" in o
    ensures Within(Obj((o - {"referenceToDataSource"})
      ["referencesToDataSource" := Obj(map["referenceToDataSource" := o["referenceToDataSource"]])]), d + 1)
  {
  }

  lemma LinkLighter(prefix: string)
    ensures Size(Str(prefix + ".xml")) < Size(Str(prefix + ".json"))
  {
    WeightConcat(prefix, ".xml");
    WeightConcat(prefix, ".json");
    assert ".xml"[1..] == "xml" && "xml"[1..] == "ml" && "ml"[1..] == "l" && "l"[1..] == "";
    assert ".json"[1..] == "json" && "json"[1..] == "son" && "son"[1..] == "on" && "on"[1..] == "n" && "n"[1..] == "";
  }

  lemma CutLighter(text: string, n: nat)
    requires n < |text|
    ensures Size(Str(text[..n])) < Size(Str(text))
  {
    PartLighter(text, 0, n);
  }

  method AdaptReferenceUri(node: Members, path: string, ghost ts: Path, recovery: RecoveryBuilder, ghost d: nat)
    returns (out: Members)
    requires recovery.Valid() && path == Encode(ts) && Adaptable(Obj(node), recovery.State(), ts)
    requires Within(Obj(node), d)
    modifies recovery
    ensures recovery.Valid() && Sound(node, old(recovery.State()), out, recovery.State(), ts, d)
    ensures out == UriMapped(node)
  {
    hide Sound, Adaptable, RecoveryBuilder.Valid, RecoveryBuilder.State, Escape;
    SoundRefl(node, recovery.State(), ts, d);
    if !("@uri" in node && node["@uri"].Str?) {
      return node;
    }
    var prefix := StripSuffix(node["@uri"].value, ".json");
    if prefix.None? {
      return node;
    }
    PlainNames();
    LinkLighter(prefix.value);
    out := ReplaceKey(node, path, ts, "@uri", Join(path, "@uri"), Str(prefix.value + ".xml"), "map-tidas-reference-uri",
                      recovery, d);
  }

  method MergeDuplicateLanguages(node: Members, path: string, ghost ts: Path, recovery: RecoveryBuilder, ghost d: nat)
    returns (out: Members)
    requires recovery.Valid() && path == Encode(ts) && Adaptable(Obj(node), recovery.State(), ts)
    requires Within(Obj(node), d)
    modifies recovery
    ensures recovery.Valid() && Sound(node, old(recovery.State()), out, recovery.State(), ts, d)
    ensures out == LanguagesMerged(node, path)
  {
    hide Sound, Adaptable, Within, RecoveryBuilder.Valid, RecoveryBuilder.State;
    ghost var L0 := recovery.State();
    out := node;
    SoundRefl(node, L0, ts, d);
    var rest := node.Keys;
    while rest != {}
      invariant rest <= node.Keys
      invariant recovery.Valid() && Sound(node, L0, out, recovery.State(), ts, d)
      invariant out == map k | k in node :: if k in rest then node[k] else MemberMerged(path, k, node[k])
      decreases |rest|
    {
      var key :| key in rest;
      ghost var before, L := out, recovery.State();
      SoundGives(node, L0, out, L, ts, d);
      out := MergeKey(out, path, ts, key, recovery, d);
      Chain(node, L0, before, L, out, recovery.State(), ts, d);
      rest := rest - {key};
    }
  }

  method MergeKey(node: Members, path: string, ghost ts: Path, key: string, recovery: RecoveryBuilder, ghost d: nat)
    returns (out: Members)
    requires recovery.Valid() && path == Encode(ts) && Adaptable(Obj(node), recovery.State(), ts)
    requires Within(Obj(node), d) && key in node
    modifies recovery
    ensures recovery.Valid() && Sound(node, old(recovery.State()), out, recovery.State(), ts, d)
    ensures out == node[key := MemberMerged(path, key, node[key])]
  {
    hide Sound, Adaptable, Within, RecoveryBuilder.Valid, RecoveryBuilder.State, MayRepeat;
    SoundRefl(node, recovery.State(), ts, d);
    if !MayRepeat(path, key) && node[key].Arr? {
      var repeated := CountsRepeat(node[key].items);
      if repeated {
        var merged := MergeItems(node[key].items);
        WithinMember(node, key, d);
        MergedWithin(node[key].items, d - 1);
        MergedSmaller(node[key].items);
        MergedCorrect(node[key].items);
        out := ReplaceKey(node, path, ts, key, Join(path, Escape(key)), Arr(merged), "merge-localized-language", recovery, d);
        return;
      }
    }
    out := node;
  }

  lemma {:induction false} WithinMember(m: Members, k: string, d: nat)
    requires Within(Obj(m), d) && k in m
    ensures d > 0 && Within(m[k], d - 1)
  {
  }

  lemma {:induction false} MergedWithin(items: seq<Value>, d: nat)
    requires Within(Arr(items), d)
    ensures Within(Arr(Merged(items)), d)
  {
    if items != [] {
      var init, item := items[..|items| - 1], items[|items| - 1];
      MergedWithin(init, d);
      var merged := Merged(init);
      if Lang(item).Some? {
        FindCorrect(merged, Lang(item).value);
        match Find(merged, Lang(item).value)
        case None =>
        case Some(i) =>
          assert Within(merged[i], d);
          assert Within(Absorb(merged, item)[i], d);
      }
    }
  }

  lemma {:induction false} SizeUpdate(items: seq<Value>, i: nat, x: Value)
    requires i < |items|
    ensures SizeAll(items[i := x]) == SizeAll(items) - Size(items[i]) + Size(x)
  {
    var init, n := items[..|items| - 1], |items| - 1;
    if i < n {
      SizeUpdate(init, i, x);
      assert items[i := x][..n] == init[i := x];
    } else {
      assert items[i := x][..n] == init;
    }
  }

  lemma {:induction false} SizeAppend(items: seq<Value>, x: Value)
    ensures SizeAll(items + [x]) == SizeAll(items) + Size(x)
  {
    assert (items + [x])[..|items|] == items;
  }

  /** Merging languages keeps an array or makes it smaller. */
  lemma {:induction false} MergedSmaller(items: seq<Value>)
    ensures Merged(items) == items || SizeAll(Merged(items)) < SizeAll(items)
  {
    hide Size;
    if items != [] {
      var init, item := items[..|items| - 1], items[|items| - 1];
      assert items == init + [item];
      MergedSmaller(init);
      SizePositive(item);
      var merged := Merged(init);
      SizeAppend(merged, item);
      SizeAppend(init, item);
      if Lang(item).Some? {
        FindCorrect(merged, Lang(item).value);
        match Find(merged, Lang(item).value)
        case None =>
        case Some(i) =>
          SizeUpdate(merged, i, Absorb(merged, item)[i]);
          ObjectSize(merged[i].members);
          ObjectSize(Absorb(merged, item)[i].members);
      }
    }
  }

  lemma SizePositive(v: Value)
    ensures Size(v) > 0
  {
  }

  lemma ObjectSize(m: Members)
    ensures Size(Obj(m)) == 1
  {
  }

  lemma {:induction false} SizeItem(items: seq<Value>, i: nat)
    requires i < |items|
    ensures Size(items[i]) <= SizeAll(items)
  {
    if i < |items| - 1 {
      SizeItem(items[..|items| - 1], i);
    }
  }

  // ---------- steps of one category ----------

  lemma {:induction false} ListedNames()
    ensures "0" !in PROCESS_EXTENSIONS && "0" !in FLOW_EXTENSIONS && "0" !in FLOW_PUBLICATION
    ensures "0" !in MODEL_METADATA && "0" !in MODEL_SOURCES && "0" !in MODEL_AUTHORITIES
    ensures "0" !in METHOD_METADATA && "0" !in SOURCE_METADATA
  {
  }

  method TruncateText(node: Members, path: string, ghost ts: Path, maximum: nat, recovery: RecoveryBuilder, ghost d: nat)
    returns (out: Members)
    requires recovery.Valid() && path == Encode(ts) && Adaptable(Obj(node), recovery.State(), ts)
    requires Within(Obj(node), d)
    modifies recovery
    ensures recovery.Valid() && Sound(node, old(recovery.State()), out, recovery.State(), ts, d)
    ensures out == Truncated(node, path, maximum)
  {
    hide Sound, Adaptable, RecoveryBuilder.Valid, RecoveryBuilder.State, Contains, Escape;
    SoundRefl(node, recovery.State(), ts, d);
    if !TakesShortText(path) {
      return node;
    }
    if !("#text" in node && node["#text"].Str?) {
      return node;
    }
    var text := node["#text"].value;
    if |text| <= maximum {
      return node;
    }
    PlainNames();
    CutLighter(text, maximum);
    out := ReplaceKey(node, path, ts, "#text", Join(path, "#text"), Str(text[..maximum]), "truncate-ilcd-multilang-text",
                      recovery, d);
  }

  method MapTimeDescription(node: Members, path: string, ghost ts: Path, recovery: RecoveryBuilder, ghost d: nat)
    returns (out: Members)
    requires recovery.Valid() && path == Encode(ts) && Adaptable(Obj(node), recovery.State(), ts)
    requires Within(Obj(node), d)
    modifies recovery
    ensures recovery.Valid()
    ensures Went(node, old(recovery.State()), out, recovery.State(), ts, d, CategoryRenames(node, path, "processes"), false)
    ensures out == TimeMapped(node, path)
  {
    hide Went, Adaptable, RecoveryBuilder.Valid, RecoveryBuilder.State, IsTimePath;
    if IsTimePath(path) && "timeRepresentativenessDescription" in node {
      out := (node - {"timeRepresentativenessDescription"})
        ["common:timeRepresentativenessDescription" := node["timeRepresentativenessDescription"]];
      ReplaceSelf(node, path, ts, out, "map-process-time-description", recovery, d);
    } else {
      SoundRefl(node, recovery.State(), ts, d);
      out := node;
    }
  }

  method AdaptProcessObject(node: Members, path: string, ghost ts: Path, recovery: RecoveryBuilder, ghost d: nat)
    returns (out: Members)
    requires recovery.Valid() && path == Encode(ts) && Adaptable(Obj(node), recovery.State(), ts)
    requires Within(Obj(node), d)
    modifies recovery
    ensures recovery.Valid()
    ensures Went(node, old(recovery.State()), out, recovery.State(), ts, d, CategoryRenames(node, path, "processes"), false)
    ensures out == ProcessAdapted(node, path)
  {
    hide Sound, Went, Adaptable, Within, RecoveryBuilder.Valid, RecoveryBuilder.State, IsExchangePath, IsTimePath, TakesShortText,
      HasNonemptyChild, CategoryRenames, Truncated, TimeMapped, IncompleteOmitted, ProcessOmitted, Names;
    ghost var L0 := recovery.State();
    ListedNames();
    var named := MapTimeDescription(node, path, ts, recovery, d);
    ghost var L1 := recovery.State();
    ghost var own := CategoryRenames(node, path, "processes");
    WentGives(node, L0, named, L1, ts, d, own, false);
    out := named;
    if IsExchangePath(path) {
      out := RemoveKey(out, path, ts, "quantitativeReference", "omit-tidas-process-extension", recovery, d);
    } else {
      SoundRefl(out, L1, ts, d);
      assert named - {} == named;
    }
    ghost var o2, L2 := out, recovery.State();
    SoundGives(named, L1, o2, L2, ts, d);
    out := RemoveKeys(out, path, ts, PROCESS_EXTENSIONS, "omit-tidas-process-extension", recovery, d);
    ghost var o3, L3 := out, recovery.State();
    Chain(named, L1, o2, L2, o3, L3, ts, d);
    out := OmitIncomplete(out, path, ts, recovery, d);
    ghost var o4, L4 := out, recovery.State();
    Chain(named, L1, o3, L3, o4, L4, ts, d);
    assert o4 == named - Names(PROCESS_EXTENSIONS) - ProcessOmitted(named, path) by {
      ProcessOmittedTogether(named, path);
    }
    out := TruncateText(out, path, ts, 500, recovery, d);
    ghost var o5, L5 := out, recovery.State();
    Chain(named, L1, o4, L4, o5, L5, ts, d);
    out := RemoveKey(out, path, ts, "unmatched:placeholder", "omit-import-placeholder", recovery, d);
    Chain(named, L1, o5, L5, out, recovery.State(), ts, d);
    WentSound(node, L0, named, L1, out, recovery.State(), ts, d, own);
  }

  /** A sound step after one that may have recorded the object itself. */
  lemma {:induction false} WentSound(a: Members, L0: Log, b: Members, L1: Log, c: Members, L2: Log, ts: Path, d: nat, own: bool)
    requires Went(a, L0, b, L1, ts, d, own, false) && Sound(b, L1, c, L2, ts, d)
    ensures Went(a, L0, c, L2, ts, d, own, false) && Adaptable(Obj(c), L2, ts) && Within(Obj(c), d)
  {
    WentTrans(a, L0, b, L1, c, L2, ts, d, own, false, false, false);
  }

  /** The conditional removals of a process object, on the object they are applied to. */
  function IncompleteOmitted(o: Members): set<string> {
    (if "variableParameter" in o && IsIncompleteParameter(o["variableParameter"]) then {"variableParameter"} else {})
    + (set k | k in {"common:dataQualityIndicators", "dataQualityIndicators"} && k in o && LacksQualityIndicator(o[k]))
  }

  lemma {:induction false} ProcessOmittedTogether(named: Members, path: string)
    ensures var first := if IsExchangePath(path) then named - {"quantitativeReference"} else named;
      var second := first - Names(PROCESS_EXTENSIONS);
      second - IncompleteOmitted(second) == named - Names(PROCESS_EXTENSIONS) - ProcessOmitted(named, path)
  {
    hide IsExchangePath, LacksQualityIndicator, IsIncompleteParameter;
    var first := if IsExchangePath(path) then named - {"quantitativeReference"} else named;
    var second := first - Names(PROCESS_EXTENSIONS);
    assert "variableParameter" !in Names(PROCESS_EXTENSIONS) + {"quantitativeReference"};
    assert "common:dataQualityIndicators" !in Names(PROCESS_EXTENSIONS) + {"quantitativeReference"};
    assert "dataQualityIndicators" !in Names(PROCESS_EXTENSIONS) + {"quantitativeReference"};
    var left := second - IncompleteOmitted(second);
    var right := named - Names(PROCESS_EXTENSIONS) - ProcessOmitted(named, path);
    forall k
      ensures k in left <==> k in right
    {
    }
    assert left == right;
  }

  method OmitEmptyIndicators(node: Members, path: string, ghost ts: Path, key: string, recovery: RecoveryBuilder, ghost d: nat)
    returns (out: Members)
    requires recovery.Valid() && path == Encode(ts) && Adaptable(Obj(node), recovery.State(), ts)
    requires Within(Obj(node), d) && key != "0"
    modifies recovery
    ensures recovery.Valid() && Sound(node, old(recovery.State()), out, recovery.State(), ts, d)
    ensures out == if key in node && LacksQualityIndicator(node[key]) then node - {key} else node
  {
    hide Sound, Adaptable, Within, RecoveryBuilder.Valid, RecoveryBuilder.State, LacksQualityIndicator;
    if key in node && LacksQualityIndicator(node[key]) {
      out := RemoveKey(node, path, ts, key, "omit-empty-data-quality-indicators", recovery, d);
    } else {
      SoundRefl(node, recovery.State(), ts, d);
      out := node;
    }
  }

  method OmitIncomplete(node: Members, path: string, ghost ts: Path, recovery: RecoveryBuilder, ghost d: nat)
    returns (out: Members)
    requires recovery.Valid() && path == Encode(ts) && Adaptable(Obj(node), recovery.State(), ts)
    requires Within(Obj(node), d)
    modifies recovery
    ensures recovery.Valid() && Sound(node, old(recovery.State()), out, recovery.State(), ts, d)
    ensures out == node - IncompleteOmitted(node)
  {
    hide Sound, Adaptable, Within, RecoveryBuilder.Valid, RecoveryBuilder.State, LacksQualityIndicator, IsIncompleteParameter;
    ghost var L0 := recovery.State();
    SoundRefl(node, L0, ts, d);
    out := node;
    if "variableParameter" in node && IsIncompleteParameter(node["variableParameter"]) {
      out := RemoveKey(out, path, ts, "variableParameter", "omit-incomplete-variable-parameter", recovery, d);
    }
    ghost var o1, L1 := out, recovery.State();
    SoundGives(node, L0, o1, L1, ts, d);
    out := OmitEmptyIndicators(out, path, ts, "common:dataQualityIndicators", recovery, d);
    ghost var o2, L2 := out, recovery.State();
    Chain(node, L0, o1, L1, o2, L2, ts, d);
    out := OmitEmptyIndicators(out, path, ts, "dataQualityIndicators", recovery, d);
    Chain(node, L0, o2, L2, out, recovery.State(), ts, d);
    OmittedTogether(node, o1, o2, out);
  }

  lemma {:induction false} OmittedTogether(node: Members, o1: Members, o2: Members, out: Members)
    requires o1 == if "variableParameter" in node && IsIncompleteParameter(node["variableParameter"])
                   then node - {"variableParameter"} else node
    requires o2 == if "common:dataQualityIndicators" in o1 && LacksQualityIndicator(o1["common:dataQualityIndicators"])
                   then o1 - {"common:dataQualityIndicators"} else o1
    requires out == if "dataQualityIndicators" in o2 && LacksQualityIndicator(o2["dataQualityIndicators"])
                    then o2 - {"dataQualityIndicators"} else o2
    ensures out == node - IncompleteOmitted(node)
  {
    hide LacksQualityIndicator, IsIncompleteParameter;
    var gone := IncompleteOmitted(node);
    assert forall k :: k in out <==> k in node && k !in gone;
    assert out == node - gone;
  }

  /** The members that flows may not have at some places. */
  method OmitFlowMembers(node: Members, path: string, ghost ts: Path, recovery: RecoveryBuilder, ghost d: nat)
    returns (out: Members)
    requires recovery.Valid() && path == Encode(ts) && Adaptable(Obj(node), recovery.State(), ts)
    requires Within(Obj(node), d)
    modifies recovery
    ensures recovery.Valid() && Sound(node, old(recovery.State()), out, recovery.State(), ts, d)
    ensures var o3 := if EndsWith(path, "/modellingAndValidation") then node - {"validation"} else node;
      var o4 := if EndsWith(path, "/publicationAndOwnership") then o3 - Names(FLOW_PUBLICATION) else o3;
      out == if EndsWith(path, "/dataSetInformation") then o4 - {"common:shortName"} else o4
  {
    hide Sound, Adaptable, Within, RecoveryBuilder.Valid, RecoveryBuilder.State, EndsWith, Names;
    ghost var L2 := recovery.State();
    ListedNames();
    out := node;
    if EndsWith(path, "/modellingAndValidation") {
      out := RemoveKey(out, path, ts, "validation", "omit-unsupported-flow-validation", recovery, d);
    } else {
      SoundRefl(out, L2, ts, d);
    }
    ghost var o3, L3 := out, recovery.State();
    SoundGives(node, L2, o3, L3, ts, d);
    if EndsWith(path, "/publicationAndOwnership") {
      out := RemoveKeys(out, path, ts, FLOW_PUBLICATION, "omit-unsupported-flow-publication-metadata", recovery, d);
    } else {
      SoundRefl(out, L3, ts, d);
    }
    ghost var o4, L4 := out, recovery.State();
    Chain(node, L2, o3, L3, o4, L4, ts, d);
    if EndsWith(path, "/dataSetInformation") {
      out := RemoveKey(out, path, ts, "common:shortName", "omit-unsupported-flow-short-name", recovery, d);
    } else {
      SoundRefl(out, L4, ts, d);
    }
    Chain(node, L2, o4, L4, out, recovery.State(), ts, d);
  }

  method AdaptFlowObject(node: Members, path: string, ghost ts: Path, recovery: RecoveryBuilder, ghost d: nat)
    returns (out: Members)
    requires recovery.Valid() && path == Encode(ts) && Adaptable(Obj(node), recovery.State(), ts)
    requires Within(Obj(node), d)
    modifies recovery
    ensures recovery.Valid() && Sound(node, old(recovery.State()), out, recovery.State(), ts, d)
    ensures out == FlowAdapted(node, path)
  {
    hide Sound, Adaptable, Within, RecoveryBuilder.Valid, RecoveryBuilder.State, EndsWith, IsEmptyScalar, TakesShortText,
      Names, FlowOmitted;
    ghost var L0 := recovery.State();
    ListedNames();
    out := RemoveKeys(node, path, ts, FLOW_EXTENSIONS, "omit-unsupported-flow-extension", recovery, d);
    ghost var o1, L1 := out, recovery.State();
    SoundGives(node, L0, o1, L1, ts, d);
    if "@classId" in out && IsEmptyScalar(out["@classId"]) && "@catId" in out {
      out := RemoveKey(out, path, ts, "@classId", "omit-empty-elementary-class-id", recovery, d);
    } else {
      SoundRefl(out, L1, ts, d);
    }
    ghost var o2, L2 := out, recovery.State();
    Chain(node, L0, o1, L1, o2, L2, ts, d);
    out := OmitFlowMembers(out, path, ts, recovery, d);
    ghost var o5, L5 := out, recovery.State();
    Chain(node, L0, o2, L2, o5, L5, ts, d);
    FlowOmittedTogether(node, path, o2, o5);
    out := TruncateText(out, path, ts, 500, recovery, d);
    Chain(node, L0, o5, L5, out, recovery.State(), ts, d);
  }

  lemma {:induction false} FlowOmittedTogether(node: Members, path: string, o2: Members, o5: Members)
    requires var o1 := node - Names(FLOW_EXTENSIONS);
      o2 == if "@classId" in o1 && IsEmptyScalar(o1["@classId"]) && "@catId" in o1 then o1 - {"@classId"} else o1
    requires var o3 := if EndsWith(path, "/modellingAndValidation") then o2 - {"validation"} else o2;
      var o4 := if EndsWith(path, "/publicationAndOwnership") then o3 - Names(FLOW_PUBLICATION) else o3;
      o5 == if EndsWith(path, "/dataSetInformation") then o4 - {"common:shortName"} else o4
    ensures o5 == node - Names(FLOW_EXTENSIONS) - FlowOmitted(node, path)
  {
    assert "@classId" !in Names(FLOW_EXTENSIONS) && "@catId" !in Names(FLOW_EXTENSIONS);
    hide EndsWith, IsEmptyScalar, Names;
    var o1 := node - Names(FLOW_EXTENSIONS);
    FourRemovals(o1, "@classId" in o1 && IsEmptyScalar(o1["@classId"]) && "@catId" in o1, {"@classId"},
                 EndsWith(path, "/modellingAndValidation"), {"validation"},
                 EndsWith(path, "/publicationAndOwnership"), Names(FLOW_PUBLICATION),
                 EndsWith(path, "/dataSetInformation"), {"common:shortName"});
  }

  /** Removals under a condition each, one after another, are one removal. */
  lemma {:induction false} FourRemovals(o: Members, a: bool, xs: set<string>, b: bool, ys: set<string>, c: bool, zs: set<string>,
                                        d: bool, ws: set<string>)
    ensures var o2 := if a then o - xs else o;
      var o3 := if b then o2 - ys else o2;
      var o4 := if c then o3 - zs else o3;
      (if d then o4 - ws else o4)
      == o - ((if a then xs else {}) + (if b then ys else {}) + (if c then zs else {}) + (if d then ws else {}))
  {
    MinusIf(o, a, xs);
    var o2 := if a then o - xs else o;
    MinusIf(o2, b, ys);
    var o3 := if b then o2 - ys else o2;
    MinusIf(o3, c, zs);
    var o4 := if c then o3 - zs else o3;
    MinusIf(o4, d, ws);
    var p, q, r, t: set<string> := if a then xs else {}, if b then ys else {}, if c then zs else {}, if d then ws else {};
    MinusTwice(o, p, q);
    MinusTwice(o, p + q, r);
    MinusTwice(o, p + q + r, t);
  }

  lemma MinusIf(o: Members, c: bool, names: set<string>)
    ensures (if c then o - names else o) == o - (if c then names else {})
  {
  }

  lemma MinusTwice(o: Members, names: set<string>, more: set<string>)
    ensures o - names - more == o - (names + more)
  {
  }

  method AdaptLciaMethodObject(node: Members, path: string, ghost ts: Path, recovery: RecoveryBuilder, ghost d: nat)
    returns (out: Members)
    requires recovery.Valid() && path == Encode(ts) && Adaptable(Obj(node), recovery.State(), ts)
    requires Within(Obj(node), d)
    modifies recovery
    ensures recovery.Valid() && Sound(node, old(recovery.State()), out, recovery.State(), ts, d)
    ensures out == node - Names(METHOD_METADATA)
  {
    ListedNames();
    out := RemoveKeys(node, path, ts, METHOD_METADATA, "omit-unsupported-lcia-method-metadata", recovery, d);
  }

  method AdaptSourceObject(node: Members, path: string, ghost ts: Path, recovery: RecoveryBuilder, ghost d: nat)
    returns (out: Members)
    requires recovery.Valid() && path == Encode(ts) && Adaptable(Obj(node), recovery.State(), ts)
    requires Within(Obj(node), d)
    modifies recovery
    ensures recovery.Valid() && Sound(node, old(recovery.State()), out, recovery.State(), ts, d)
    ensures out == SourceAdapted(node)
  {
    hide Sound, Adaptable, RecoveryBuilder.Valid, RecoveryBuilder.State, Names, Escape;
    ghost var L0 := recovery.State();
    ListedNames();
    out := RemoveKeys(node, path, ts, SOURCE_METADATA, "omit-unsupported-source-metadata", recovery, d);
    ghost var o1, L1 := out, recovery.State();
    SoundGives(node, L0, o1, L1, ts, d);
    if "sourceCitation" in out && out["sourceCitation"].Str? && |out["sourceCitation"].value| > 1000 {
      PlainNames();
      CutLighter(out["sourceCitation"].value, 1000);
      out := ReplaceKey(out, path, ts, "sourceCitation", Join(path, "sourceCitation"),
                        Str(out["sourceCitation"].value[..1000]), "truncate-ilcd-source-citation", recovery, d);
      Chain(node, L0, o1, L1, out, recovery.State(), ts, d);
    }
  }

  method JoinFragments(items: seq<Value>) returns (text: string)
    requires items != [] && AllFragments(items)
    ensures text == MixedText(items)
  {
    text := FragmentText(items[0]);
    for i := 1 to |items|
      invariant text == MixedText(items[..i])
    {
      text := text + "\n\n" + FragmentText(items[i]);
      assert items[..i + 1][..i] == items[..i];
    }
    assert items[..|items|] == items;
  }

  /** Keeps every language of a model comment visible in one text. */
  method ProjectModelComment(node: Members, path: string, ghost ts: Path, recovery: RecoveryBuilder, ghost d: nat)
    returns (out: Members)
    requires recovery.Valid() && path == Encode(ts) && Adaptable(Obj(node), recovery.State(), ts)
    requires Within(Obj(node), d)
    modifies recovery
    ensures recovery.Valid() && Sound(node, old(recovery.State()), out, recovery.State(), ts, d)
    ensures out == CommentProjected(node, path)
  {
    hide Sound, Adaptable, Within, RecoveryBuilder.Valid, RecoveryBuilder.State, MixedText, AllFragments,
      Escape;
    SoundRefl(node, recovery.State(), ts, d);
    out := node;
    if path != MODEL_COMMENT_PATH || !("common:generalComment" in node && node["common:generalComment"].Arr?) {
      return;
    }
    var items := node["common:generalComment"].items;
    if |items| < 2 || !AllFragments(items) {
      return;
    }
    var text := JoinFragments(items);
    PlainNames();
    CommentWithin(node, text, d);
    CommentSmaller(items, Obj(map["@xml:lang" := Str("mul"), "#text" := Str(text)]));
    out := ReplaceKey(node, path, ts, "common:generalComment", Join(path, "common:generalComment"),
                      Obj(map["@xml:lang" := Str("mul"), "#text" := Str(text)]),
                      "project-singleton-lifecycle-model-comment", recovery, d);
  }

  lemma CommentSmaller(items: seq<Value>, comment: Value)
    requires items != [] && comment.Obj?
    ensures Size(comment) < Size(Arr(items))
  {
    SizePositive(items[|items| - 1]);
  }

  lemma {:induction false} CommentWithin(node: Members, text: string, d: nat)
    requires Within(Obj(node), d) && "common:generalComment" in node && node["common:generalComment"].Arr?
    requires |node["common:generalComment"].items| >= 2 && AllFragments(node["common:generalComment"].items)
    ensures d > 0 && Within(Obj(map["@xml:lang" := Str("mul"), "#text" := Str(text)]), d - 1)
  {
    assert Within(node["common:generalComment"], d - 1);
    assert Within(node["common:generalComment"].items[0], d - 1);
  }

  method MapModelName(node: Members, path: string, ghost ts: Path, recovery: RecoveryBuilder, ghost d: nat)
    returns (out: Members)
    requires recovery.Valid() && path == Encode(ts) && Adaptable(Obj(node), recovery.State(), ts)
    requires Within(Obj(node), d)
    modifies recovery
    ensures recovery.Valid()
    ensures Went(node, old(recovery.State()), out, recovery.State(), ts, d, CategoryRenames(node, path, "lifecyclemodels"), false)
    ensures out == NameMapped(node, path)
  {
    hide Sound, Went, Adaptable, Within, RecoveryBuilder.Valid, RecoveryBuilder.State, EndsWith, MayRepeat, HasRepeat;
    ghost var L0 := recovery.State();
    if EndsWith(path, "/name") && "flowProperties" in node {
      var earlier := if "functionalUnitFlowProperties" in node then AsItems(node["functionalUnitFlowProperties"]) else [];
      var mapped := (node - {"flowProperties", "functionalUnitFlowProperties"})
        ["functionalUnitFlowProperties" := Arr(earlier + AsItems(node["flowProperties"]))];
      NameWithin(node, earlier, mapped, d);
      ReplaceSelf(node, path, ts, mapped, "map-lifecycle-model-flow-properties", recovery, d);
      ghost var L1 := recovery.State();
      WentGives(node, L0, mapped, L1, ts, d, true, false);
      out := MergeDuplicateLanguages(mapped, path, ts, recovery, d);
      WentSound(node, L0, mapped, L1, out, recovery.State(), ts, d, true);
    } else {
      SoundRefl(node, L0, ts, d);
      SoundWent(node, L0, node, L0, ts, d);
      out := node;
    }
  }

  lemma SoundWent(a: Members, L0: Log, b: Members, L1: Log, ts: Path, d: nat)
    requires Sound(a, L0, b, L1, ts, d)
    ensures Went(a, L0, b, L1, ts, d, false, false)
  {
  }

  lemma {:induction false} NameWithin(node: Members, earlier: seq<Value>, mapped: Members, d: nat)
    requires Within(Obj(node), d) && "flowProperties" in node
    requires earlier == if "functionalUnitFlowProperties" in node then AsItems(node["functionalUnitFlowProperties"]) else []
    requires mapped == (node - {"flowProperties", "functionalUnitFlowProperties"})
      ["functionalUnitFlowProperties" := Arr(earlier + AsItems(node["flowProperties"]))]
    ensures Within(Obj(mapped), d)
  {
    ItemsWithin(node["flowProperties"], d - 1);
    if "functionalUnitFlowProperties" in node {
      ItemsWithin(node["functionalUnitFlowProperties"], d - 1);
    }
    assert Within(Arr(earlier + AsItems(node["flowProperties"])), d - 1);
  }

  lemma {:induction false} ItemsWithin(v: Value, d: nat)
    requires Within(v, d)
    ensures forall i :: 0 <= i < |AsItems(v)| ==> Within(AsItems(v)[i], d)
  {
  }

  method SelectPrimaryCompliance(node: Members, path: string, ghost ts: Path, recovery: RecoveryBuilder, ghost d: nat)
    returns (out: Members)
    requires recovery.Valid() && path == Encode(ts) && Adaptable(Obj(node), recovery.State(), ts)
    requires Within(Obj(node), d)
    modifies recovery
    ensures recovery.Valid() && Sound(node, old(recovery.State()), out, recovery.State(), ts, d)
    ensures out == PrimaryCompliance(node)
  {
    hide Sound, Adaptable, RecoveryBuilder.Valid, RecoveryBuilder.State, Escape;
    SoundRefl(node, recovery.State(), ts, d);
    out := node;
    if "compliance" in node && node["compliance"].Arr? && |node["compliance"].items| > 1 {
      PlainNames();
      assert Within(node["compliance"], d - 1) && Within(node["compliance"].items[0], d - 1);
      SizeItem(node["compliance"].items, 0);
      out := ReplaceKey(node, path, ts, "compliance", Join(path, "compliance"), node["compliance"].items[0],
                                  "select-primary-lifecycle-model-compliance", recovery, d);
    }
  }

  method OmitModelMembers(node: Members, path: string, ghost ts: Path, recovery: RecoveryBuilder, ghost d: nat)
    returns (out: Members)
    requires recovery.Valid() && path == Encode(ts) && Adaptable(Obj(node), recovery.State(), ts)
    requires Within(Obj(node), d)
    modifies recovery
    ensures recovery.Valid() && Sound(node, old(recovery.State()), out, recovery.State(), ts, d)
    ensures out == node - Names(MODEL_METADATA) - ModelOmitted(path)
  {
    hide Sound, Adaptable, Within, RecoveryBuilder.Valid, RecoveryBuilder.State, EndsWith;
    ghost var L0 := recovery.State();
    ListedNames();
    out := RemoveKeys(node, path, ts, MODEL_METADATA, "omit-unsupported-lifecycle-model-metadata", recovery, d);
    ghost var o2, L2 := out, recovery.State();
    SoundGives(node, L0, o2, L2, ts, d);
    if EndsWith(path, "/dataEntryBy") {
      out := RemoveKeys(out, path, ts, MODEL_SOURCES, "omit-unsupported-lifecycle-model-source-reference", recovery, d);
    } else {
      SoundRefl(out, L2, ts, d);
    }
    ghost var o3, L3 := out, recovery.State();
    Chain(node, L0, o2, L2, o3, L3, ts, d);
    if EndsWith(path, "/publicationAndOwnership") {
      out := RemoveKeys(out, path, ts, MODEL_AUTHORITIES, "omit-unsupported-lifecycle-model-registration-authority",
                        recovery, d);
    } else {
      SoundRefl(out, L3, ts, d);
    }
    Chain(node, L0, o3, L3, out, recovery.State(), ts, d);
    ModelOmittedTogether(node, path, o3, out);
  }

  method AdaptLifecycleModelObject(node: Members, path: string, ghost ts: Path, recovery: RecoveryBuilder, ghost d: nat)
    returns (out: Members)
    requires recovery.Valid() && path == Encode(ts) && Adaptable(Obj(node), recovery.State(), ts)
    requires Within(Obj(node), d)
    modifies recovery
    ensures recovery.Valid()
    ensures Went(node, old(recovery.State()), out, recovery.State(), ts, d, CategoryRenames(node, path, "lifecyclemodels"), false)
    ensures out == ModelAdapted(node, path)
  {
    hide Sound, Went, Adaptable, Within, RecoveryBuilder.Valid, RecoveryBuilder.State, EndsWith, IsReviewPath, CommentProjected,
      NameMapped, PrimaryCompliance, CategoryRenames, Names, ModelOmitted;
    ghost var L0 := recovery.State();
    ListedNames();
    out := ProjectModelComment(node, path, ts, recovery, d);
    ghost var o1, L1 := out, recovery.State();
    SoundGives(node, L0, o1, L1, ts, d);
    out := OmitModelMembers(out, path, ts, recovery, d);
    ghost var o4, L4 := out, recovery.State();
    Chain(node, L0, o1, L1, o4, L4, ts, d);
    out := MapModelName(out, path, ts, recovery, d);
    ghost var o5, L5 := out, recovery.State();
    ghost var own := CategoryRenames(node, path, "lifecyclemodels");
    SameRenaming(node, path);
    SoundWent(node, L0, o4, L4, ts, d);
    WentTrans(node, L0, o4, L4, o5, L5, ts, d, false, false, own, false);
    if "@type" in out && IsReviewPath(path) {
      out := RemoveKey(out, path, ts, "@type", "omit-unsupported-lifecycle-model-review-type", recovery, d);
    } else {
      SoundRefl(out, L5, ts, d);
    }
    ghost var o6, L6 := out, recovery.State();
    SoundGives(o5, L5, o6, L6, ts, d);
    assert o6 == if IsReviewPath(path) then o5 - {"@type"} else o5;
    out := SelectPrimaryCompliance(out, path, ts, recovery, d);
    Chain(o5, L5, o6, L6, out, recovery.State(), ts, d);
    WentSound(node, L0, o5, L5, out, recovery.State(), ts, d, own);
  }

  /** The steps before the renaming leave alone what decides about it. */
  lemma {:induction false} SameRenaming(node: Members, path: string)
    ensures var trimmed := CommentProjected(node, path) - Names(MODEL_METADATA) - ModelOmitted(path);
      CategoryRenames(trimmed, path, "lifecyclemodels") <==> CategoryRenames(node, path, "lifecyclemodels")
  {
    hide EndsWith, NeedsMixedComment;
    assert |"flowProperties"| != |"common:generalComment"|;
    assert "flowProperties" !in Names(MODEL_METADATA) && "flowProperties" !in ModelOmitted(path);
  }

  lemma {:induction false} ModelOmittedTogether(o1: Members, path: string, o3: Members, o4: Members)
    requires var o2 := o1 - Names(MODEL_METADATA);
      o3 == if EndsWith(path, "/dataEntryBy") then o2 - Names(MODEL_SOURCES) else o2
    requires o4 == if EndsWith(path, "/publicationAndOwnership") then o3 - Names(MODEL_AUTHORITIES) else o3
    ensures o4 == o1 - Names(MODEL_METADATA) - ModelOmitted(path)
  {
    hide EndsWith;
    var right := o1 - Names(MODEL_METADATA) - ModelOmitted(path);
    assert forall k :: k in o4 <==> k in right;
    assert o4 == right;
  }

  /** The steps that depend on the category, chosen by its name. */
  method AdaptCategory(node: Members, path: string, ghost ts: Path, category: string, recovery: RecoveryBuilder, ghost d: nat)
    returns (out: Members)
    requires recovery.Valid() && path == Encode(ts) && Adaptable(Obj(node), recovery.State(), ts)
    requires Within(Obj(node), d)
    modifies recovery
    ensures recovery.Valid()
    ensures Went(node, old(recovery.State()), out, recovery.State(), ts, d, CategoryRenames(node, path, category), false)
    ensures out == CategoryAdapted(node, path, category)
  {
    hide Went, Adaptable, Within, RecoveryBuilder.Valid, RecoveryBuilder.State, IsTimePath, EndsWith;
    match category {
      case "processes" => out := AdaptProcessObject(node, path, ts, recovery, d);
      case "flows" => out := AdaptFlowObject(node, path, ts, recovery, d);
      case "lciamethods" => out := AdaptLciaMethodObject(node, path, ts, recovery, d);
      case "lifecyclemodels" => out := AdaptLifecycleModelObject(node, path, ts, recovery, d);
      case "sources" => out := AdaptSourceObject(node, path, ts, recovery, d);
      case _ =>
        SoundRefl(node, recovery.State(), ts, d);
        out := node;
    }
  }

  // ---------- one object, then its members ----------

  ghost predicate Wraps(node: Members, path: string, category: string) {
    category == "processes" && IsExchangePath(path) && "referenceToDataSource" in node
  }

  method NormalizeTexts(node: Members, path: string, ghost ts: Path, recovery: RecoveryBuilder, ghost d: nat)
    returns (out: Members)
    requires recovery.Valid() && path == Encode(ts) && Adaptable(Obj(node), recovery.State(), ts)
    requires Within(Obj(node), d)
    modifies recovery
    ensures recovery.Valid() && Sound(node, old(recovery.State()), out, recovery.State(), ts, d)
    ensures out == TextsProjected(node)
  {
    hide Sound, Adaptable, RecoveryBuilder.Valid, RecoveryBuilder.State, ProjectText, Trim, LineEnds, Within;
    ghost var L0 := recovery.State();
    out := node;
    SoundRefl(node, L0, ts, d);
    var rest := node.Keys;
    while rest != {}
      invariant rest <= node.Keys
      invariant recovery.Valid() && Sound(node, L0, out, recovery.State(), ts, d)
      invariant out == map k | k in node :: if k in rest then node[k] else TextProjected(k, node[k])
      decreases |rest|
    {
      var key :| key in rest;
      ghost var before, L := out, recovery.State();
      SoundGives(node, L0, out, L, ts, d);
      if node[key].Str? && !("@" <= key) && node[key].value != ProjectText(node[key].value) {
        WithinText(node, key, node[key].value, d);
        ProjectLighter(node[key].value);
        out := ReplaceKey(out, path, ts, key, Join(path, Escape(key)), Str(ProjectText(node[key].value)),
                          "normalize-xml-character-data", recovery, d);
        Chain(node, L0, before, L, out, recovery.State(), ts, d);
      }
      rest := rest - {key};
    }
  }

  lemma {:induction false} WithinText(node: Members, key: string, text: string, d: nat)
    requires Within(Obj(node), d)
    ensures Within(Str(text), d - 1) && Within(Str(ProjectText(text)), d - 1)
  {
  }

  /** What the steps before the removals make of an object. */
  function Reworked(o: Members, path: string, category: string): Members {
    CategoryAdapted(LanguagesMerged(UriMapped(if category == "processes" then ExchangeMapped(o, path) else o), path), path, category)
  }

  /** No step but a renaming touches, or makes, an empty array named "0". */
  lemma {:induction false} ZeroUntouched(o: Members, path: string, category: string)
    requires !Renames(o, path, category)
    ensures var out := Reworked(o, path, category);
      "0" in out && out["0"] == Arr([]) <==> "0" in o && o["0"] == Arr([])
  {
    hide EndsWith, IsExchangePath, IsTimePath, IsReviewPath, MayRepeat, TakesShortText, LacksQualityIndicator,
      IsIncompleteParameter, IsEmptyScalar, AllFragments, MixedText;
    var merged := LanguagesMerged(UriMapped(o), path);
    assert "0" in merged && merged["0"] == Arr([]) <==> "0" in o && o["0"] == Arr([]) by {
      if "0" in o && o["0"].Arr? {
        MergedCorrect(o["0"].items);
        MergedSome(o["0"].items);
      }
    }
    ZeroThroughCategory(merged, path, category);
  }

  lemma {:induction false} MergedSome(items: seq<Value>)
    ensures items != [] ==> Merged(items) != []
  {
    if items != [] {
      var init, item := items[..|items| - 1], items[|items| - 1];
      MergedSome(init);
      if Lang(item).Some? {
        FindCorrect(Merged(init), Lang(item).value);
      }
    }
  }

  /** The member "0" of two objects is the same, or missing in both. */
  predicate SameZero(o: Members, out: Members) {
    ("0" in out <==> "0" in o) && ("0" in out ==> out["0"] == o["0"])
  }

  lemma {:induction false} ZeroThroughCategory(o: Members, path: string, category: string)
    requires !CategoryRenames(o, path, category)
    ensures SameZero(o, CategoryAdapted(o, path, category))
  {
    hide SameZero, ProcessAdapted, FlowAdapted, ModelAdapted, SourceAdapted, EndsWith, IsTimePath, Names;
    match category
    case "processes" => ZeroThroughProcess(o, path);
    case "flows" => ZeroThroughFlow(o, path);
    case "lciamethods" => ZeroStays(o, METHOD_METADATA);
    case "lifecyclemodels" => ZeroThroughModel(o, path);
    case "sources" => ZeroThroughSource(o);
    case _ => SameObjectZero(o);
  }

  lemma SameObjectZero(o: Members)
    ensures SameZero(o, o)
  {
  }

  lemma {:induction false} ZeroStays(o: Members, keys: seq<string>)
    requires "0" !in keys
    ensures SameZero(o, o - Names(keys))
  {
  }

  lemma {:induction false} ZeroThroughProcess(o: Members, path: string)
    requires !CategoryRenames(o, path, "processes")
    ensures SameZero(o, ProcessAdapted(o, path))
  {
    hide IsTimePath, IsExchangePath, TakesShortText, LacksQualityIndicator, IsIncompleteParameter;
    ListedNames();
    assert "0" !in Names(PROCESS_EXTENSIONS) && "0" !in ProcessOmitted(o, path);
  }

  lemma {:induction false} ZeroThroughFlow(o: Members, path: string)
    ensures SameZero(o, FlowAdapted(o, path))
  {
    hide EndsWith, TakesShortText, IsEmptyScalar;
    ListedNames();
    assert "0" !in Names(FLOW_EXTENSIONS) && "0" !in FlowOmitted(o, path);
  }

  lemma {:induction false} ZeroThroughModel(o: Members, path: string)
    requires !CategoryRenames(o, path, "lifecyclemodels")
    ensures SameZero(o, ModelAdapted(o, path))
  {
    hide EndsWith, IsReviewPath, AllFragments, MixedText;
    ListedNames();
    SameRenaming(o, path);
    var trimmed := CommentProjected(o, path) - Names(MODEL_METADATA) - ModelOmitted(path);
    assert SameZero(o, CommentProjected(o, path)) by { assert |"common:generalComment"| > 1; }
    assert "0" !in Names(MODEL_METADATA) && "0" !in ModelOmitted(path);
    assert SameZero(o, trimmed);
    assert NameMapped(trimmed, path) == trimmed;
    assert |"compliance"| > 1;
  }

  lemma {:induction false} ZeroThroughSource(o: Members)
    ensures SameZero(o, SourceAdapted(o))
  {
    ListedNames();
    assert "0" !in Names(SOURCE_METADATA);
    assert |"sourceCitation"| > 1;
  }

  /** The steps that make an object's own members fit, before any member is visited. */
  method AdaptShallow(node: Members, path: string, ghost ts: Path, category: string, recovery: RecoveryBuilder, ghost d: nat)
    returns (out: Members, ghost deep: nat)
    requires recovery.Valid() && path == Encode(ts) && Fresh(recovery.State(), ts)
    requires Within(Obj(node), d)
    modifies recovery
    ensures recovery.Valid()
    ensures deep == if Wraps(node, path, category) then d + 1 else d
    ensures Went(node, old(recovery.State()), out, recovery.State(), ts, deep, Renames(node, path, category),
                 RemovesZero(node, path, category) && !Held(old(recovery.State()).fragments, ts))
    ensures out == Shallow(node, path, category)
  {
    hide Sound, Went, Adaptable, Within, RecoveryBuilder.Valid, RecoveryBuilder.State, CategoryAdapted, LanguagesMerged, UriMapped,
      TextsProjected, EmptyArrayKeys, IsExchangePath, IsEmptyScalar, IsEmptyOptional, IsExtensionKey, CategoryRenames, Fresh,
      ExchangeMapped, Overlay.Covered;
    ghost var L0 := recovery.State();
    deep := if Wraps(node, path, category) then d + 1 else d;
    var mapped := node;
    FreshAdaptable(Obj(node), L0, ts);
    ghost var wraps := Wraps(node, path, category);
    if category == "processes" {
      mapped := MapExchangeDataSource(node, path, ts, recovery, d);
      LessDeep(node, L0, mapped, recovery.State(), ts, d + 1, deep, wraps);
    } else {
      SoundRefl(node, L0, ts, d);
      SoundWent(node, L0, node, L0, ts, d);
    }
    ghost var L1 := recovery.State();
    WentGives(node, L0, mapped, L1, ts, deep, wraps, false);
    out := AdaptReferenceUri(mapped, path, ts, recovery, deep);
    ghost var o2, L2 := out, recovery.State();
    SoundGives(mapped, L1, o2, L2, ts, deep);
    out := MergeDuplicateLanguages(out, path, ts, recovery, deep);
    ghost var o3, L3 := out, recovery.State();
    Chain(mapped, L1, o2, L2, o3, L3, ts, deep);
    WentSound(node, L0, mapped, L1, o3, L3, ts, deep, wraps);
    out := AdaptCategory(out, path, ts, category, recovery, deep);
    ghost var o4, L4 := out, recovery.State();
    ghost var renames := CategoryRenames(o3, path, category);
    WentTrans(node, L0, o3, L3, o4, L4, ts, deep, wraps, false, renames, false);
    SameRenames(node, path, category);
    WentGives(node, L0, o4, L4, ts, deep, wraps || renames, false);
    StillFresh(node, L0, o4, L4, ts, path, category);
    out := OmitUnfit(out, path, ts, recovery, deep);
    ghost var lost := "0" in o4 && o4["0"] == Arr([]) && !Held(L4.fragments, ts);
    WentTrans(node, L0, o4, L4, out, recovery.State(), ts, deep, wraps || renames, false, false, lost);
    assert lost <==> RemovesZero(node, path, category) && !Held(L0.fragments, ts) by {
      if !Renames(node, path, category) {
        ZeroUntouched(node, path, category);
      }
    }
  }

  /** Nothing is recorded at or below `ts` yet, or there is a fragment at or above it. */
  ghost predicate Fresh(L: Log, ts: Path) {
    NonNested(L.fragments) && (Held(L.fragments, ts) || Clear(L.fragments, ts))
  }

  lemma {:induction false} FreshAdaptable(v: Value, L: Log, ts: Path)
    requires Fresh(L, ts)
    ensures Adaptable(v, L, ts) && Ready(v, L.fragments, ts)
  {
    FreshIsReady(v, L.fragments, ts);
  }

  lemma {:induction false} LessDeep(a: Members, L0: Log, b: Members, L1: Log, ts: Path, d: nat, e: nat, own: bool)
    requires Went(a, L0, b, L1, ts, d, own, false) && Within(Obj(b), e)
    ensures Went(a, L0, b, L1, ts, e, own, false)
  {
  }

  /** Mapping links and languages leaves alone what decides about renaming. */
  lemma {:induction false} SameRenames(o: Members, path: string, category: string)
    ensures var mapped := if category == "processes" then ExchangeMapped(o, path) else o;
      Wraps(o, path, category) || CategoryRenames(LanguagesMerged(UriMapped(mapped), path), path, category)
      <==> Renames(o, path, category)
  {
    hide IsExchangePath, IsTimePath, EndsWith, MayRepeat, HasRepeat;
    assert |"timeRepresentativenessDescription"| != |"referenceToDataSource"|;
    assert |"timeRepresentativenessDescription"| != |"referencesToDataSource"|;
  }

  /** When the removals begin, an empty array named "0" has not been recorded. */
  lemma {:induction false} StillFresh(node: Members, L0: Log, out: Members, L1: Log, ts: Path, path: string, category: string)
    requires Fresh(L0, ts) && out == Reworked(node, path, category)
    requires Marks(node, L0.fragments, out, L1.fragments, ts)
    requires Held(L1.fragments, ts) <==> Held(L0.fragments, ts) || Renames(node, path, category)
    ensures ZeroFresh(out, L1, ts)
  {
    hide Reworked, Renames;
    var p := ts + ["0"];
    if "0" in out && out["0"] == Arr([]) && !Held(L1.fragments, ts) {
      ZeroUntouched(node, path, category);
      assert p <= p;
      assert ts <= p;
      assert MemberMarked(node["0"], out["0"], p, L0.fragments, L1.fragments);
      assert p in L1.fragments || Agree(L0.fragments, L1.fragments, p);
      ClearChild(L0.fragments, ts, "0");
    }
  }

  /** Drops extension members, empty arrays, blank texts and empty optional elements, and settles the texts. */
  method OmitUnfit(node: Members, path: string, ghost ts: Path, recovery: RecoveryBuilder, ghost d: nat)
    returns (out: Members)
    requires recovery.Valid() && path == Encode(ts) && Adaptable(Obj(node), recovery.State(), ts)
    requires Within(Obj(node), d) && ZeroFresh(node, recovery.State(), ts)
    modifies recovery
    ensures recovery.Valid()
    ensures Went(node, old(recovery.State()), out, recovery.State(), ts, d, false,
                 "0" in node && node["0"] == Arr([]) && !Held(old(recovery.State()).fragments, ts))
    ensures var bound := node - ExtensionKeys(node);
      var filled := TextsProjected(bound - EmptyArrayKeys(bound));
      var texts := filled - EmptyText(filled);
      out == texts - EmptyOptionals(texts)
  {
    hide Sound, Went, Adaptable, Within, RecoveryBuilder.Valid, RecoveryBuilder.State, TextsProjected,
      IsEmptyScalar, IsEmptyOptional, ZeroFresh, Overlay.Covered;
    ghost var L0 := recovery.State();
    assert "0" !in ExtensionKeys(node);
    out := RemoveSet(node, path, ts, ExtensionKeys(node), "omit-unbound-extension-element", recovery, d);
    ghost var o1, L1 := out, recovery.State();
    SoundGives(node, L0, o1, L1, ts, d);
    SoundWent(node, L0, o1, L1, ts, d);
    WentGives(node, L0, o1, L1, ts, d, false, false);
    forall k | k in EmptyArrayKeys(o1)
      ensures Removable(o1, k, L1, ts)
    {
      StillRemovable(node, L0, o1, L1, ts, k);
    }
    out := RemoveSet(out, path, ts, EmptyArrayKeys(out), "omit-empty-array", recovery, d);
    ghost var o2, L2 := out, recovery.State();
    ghost var lost := "0" in node && node["0"] == Arr([]) && !Held(L0.fragments, ts);
    assert "0" in EmptyArrayKeys(o1) && "0" in o1 <==> "0" in node && node["0"] == Arr([]);
    WentTrans(node, L0, o1, L1, o2, L2, ts, d, false, false, false, lost);
    out := NormalizeTexts(out, path, ts, recovery, d);
    ghost var o3, L3 := out, recovery.State();
    SoundGives(o2, L2, o3, L3, ts, d);
    assert "0" !in EmptyText(out);
    out := RemoveSet(out, path, ts, EmptyText(out), "omit-empty-text", recovery, d);
    ghost var o4, L4 := out, recovery.State();
    Chain(o2, L2, o3, L3, o4, L4, ts, d);
    out := RemoveEmptyOptionalChildren(out, path, ts, recovery, d);
    Chain(o2, L2, o4, L4, out, recovery.State(), ts, d);
    SoundWent(o2, L2, out, recovery.State(), ts, d);
    WentTrans(node, L0, o2, L2, out, recovery.State(), ts, d, false, lost, false, false);
  }

  method RemoveEmptyOptionalChildren(node: Members, path: string, ghost ts: Path, recovery: RecoveryBuilder, ghost d: nat)
    returns (out: Members)
    requires recovery.Valid() && path == Encode(ts) && Adaptable(Obj(node), recovery.State(), ts)
    requires Within(Obj(node), d)
    modifies recovery
    ensures recovery.Valid() && Sound(node, old(recovery.State()), out, recovery.State(), ts, d)
    ensures out == node - EmptyOptionals(node)
  {
    hide Sound, Adaptable, Within, RecoveryBuilder.Valid, RecoveryBuilder.State;
    assert "0" !in EmptyOptionals(node);
    out := RemoveSet(node, path, ts, EmptyOptionals(node), "omit-empty-optional-element", recovery, d);
  }
}
