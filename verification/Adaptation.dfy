/** The adaptation recursion over a whole document. */
module Adaptation {
  import opened Json
  import opened Pointer
  import opened Overlay
  import opened Recovery
  import opened Steps
  import opened Languages
  import opened Rules
  import opened Surface
  import opened Provenance
  import opened Projection
  import opened Exposure

  /** How many more times an exchange below a path of `n` tokens can gain a level. */
  function Allowance(n: nat): nat {
    if n <= 3 then 2 else if n == 4 then 1 else 0
  }

  lemma {:induction false} IndexHasNoSlash(part: string)
    requires ParseIndex(part).Some?
    ensures '/' !in part
  {
    var digits := if part != "" && part[0] == '+' then part[1..] else part;
    forall i | 0 <= i < |part|
      ensures part[i] != '/'
    {
      if digits == part {
        assert '0' <= digits[i] <= '9';
      } else if i > 0 {
        assert part[i] == digits[i - 1];
      }
    }
  }

  lemma ExchangeNames()
    ensures EXCHANGE_PATH == Join(Join(Join("", "processDataSet"), "exchanges"), "exchange")
  {
  }

  lemma {:induction false} ExchangeParts()
    ensures |SplitSlash(EXCHANGE_PATH)| == 4
  {
    ExchangeNames();
    SplitPlain("");
    var a, b, c := "processDataSet", "exchanges", "exchange";
    assert '/' !in a && '/' !in b && '/' !in c;
    hide *;
    SplitJoin("", a);
    SplitJoin(Join("", a), b);
    SplitJoin(Join(Join("", a), b), c);
  }

  /** Exchanges sit three or four tokens deep, so nesting a member deeper cannot go on. */
  lemma {:induction false} ExchangeDepth(ts: Path)
    requires IsExchangePath(Encode(ts))
    ensures |ts| == 3 || |ts| == 4
  {
    hide SplitSlash, Escape, ParseIndex;
    ExchangeParts();
    SplitEncode(ts);
    if Encode(ts) != EXCHANGE_PATH {
      var index := Encode(ts)[|EXCHANGE_PATH| + 1..];
      assert Encode(ts) == Join(EXCHANGE_PATH, index);
      IndexHasNoSlash(index);
      SplitJoin(EXCHANGE_PATH, index);
    }
  }

  lemma {:induction false} DeeperBy(v: Value, d: nat, e: nat)
    requires Within(v, d) && d <= e
    ensures Within(v, e)
    decreases e
  {
    if d < e {
      DeeperBy(v, d, e - 1);
      Deeper(v, e - 1);
    }
  }

  // ---------- languages survive ----------

  /** A member that keeps its language: a string "@xml:lang" is never touched, and none appears. */
  predicate SameLang(o: Members, out: Members) {
    Lang(Obj(o)) == Lang(Obj(out))
  }

  lemma {:induction false} ProcessLang(o: Members, path: string)
    ensures SameLang(o, ProcessAdapted(o, path))
  {
    hide EndsWith, IsExchangePath, IsTimePath, Contains, LacksQualityIndicator, IsIncompleteParameter;
    var named := TimeMapped(o, path);
    assert SameLang(o, named);
    assert "@xml:lang" !in Names(PROCESS_EXTENSIONS);
    assert "@xml:lang" !in ProcessOmitted(named, path);
    var kept := named - Names(PROCESS_EXTENSIONS) - ProcessOmitted(named, path);
    assert SameLang(named, kept);
  }

  lemma {:induction false} FlowLang(o: Members, path: string)
    ensures SameLang(o, FlowAdapted(o, path))
  {
    hide EndsWith, Contains, IsEmptyScalar;
    assert "@xml:lang" !in Names(FLOW_EXTENSIONS) && "@xml:lang" !in FlowOmitted(o, path);
    var kept := o - Names(FLOW_EXTENSIONS) - FlowOmitted(o, path);
    assert SameLang(o, kept);
  }

  lemma {:induction false} ModelLang(o: Members, path: string)
    ensures SameLang(o, ModelAdapted(o, path))
  {
    hide EndsWith, IsReviewPath, AsItems, HasRepeat, MayRepeat, IsCommentFragment, AllFragments, MixedText;
    assert "@xml:lang" !in Names(MODEL_METADATA) && "@xml:lang" !in ModelOmitted(path);
    var commented := CommentProjected(o, path);
    assert SameLang(o, commented);
    var trimmed := commented - Names(MODEL_METADATA) - ModelOmitted(path);
    assert SameLang(commented, trimmed);
    var named := NameMapped(trimmed, path);
    assert SameLang(trimmed, named);
  }

  lemma {:induction false} CategoryLang(o: Members, path: string, category: string)
    ensures SameLang(o, CategoryAdapted(o, path, category))
  {
    hide ProcessAdapted, FlowAdapted, ModelAdapted;
    match category
    case "processes" => ProcessLang(o, path);
    case "flows" => FlowLang(o, path);
    case "lciamethods" =>
    case "lifecyclemodels" => ModelLang(o, path);
    case "sources" => assert "@xml:lang" !in Names(SOURCE_METADATA);
    case _ =>
  }

  lemma {:induction false} ShallowLang(o: Members, path: string, category: string)
    ensures SameLang(o, Shallow(o, path, category))
  {
    hide EndsWith, IsExchangePath, Contains, MayRepeat, HasRepeat, CategoryAdapted, IsEmptyScalar;
    var mapped := if category == "processes" then ExchangeMapped(o, path) else o;
    var merged := LanguagesMerged(UriMapped(mapped), path);
    assert SameLang(o, merged);
    CategoryLang(merged, path, category);
    var adapted := CategoryAdapted(merged, path, category);
    assert !IsExtensionKey("@xml:lang") by {
      assert "@xml:lang"[0] == '@' && "tidasimport:"[0] == 't' && "unmatched:"[0] == 'u';
    }
    assert "@" <= "@xml:lang";
  }

  // ---------- the recursion ----------

  /** What adapting a value at a path promises about the value itself. */
  ghost predicate Adapted(v: Value, out: Value, path: string, category: string) {
    Alike(v, out) && OnSurface(out, path, category) && (HasElement(v) <==> HasElement(out))
    && (v.Obj? ==> out.Obj? && out.members.Keys == Remains(v, path, category))
    && Corresponds(v, out, path, category)
  }

  /** The members visited so far fit; the others are still as they were. */
  ghost predicate Visiting(shallow: Members, now: Members, rest: set<string>, path: string, category: string) {
    now.Keys == shallow.Keys && rest <= shallow.Keys
    && (forall k :: k in rest ==> now[k] == shallow[k])
    && (forall k :: k in now && k !in rest ==> Adapted(shallow[k], now[k], Join(path, Escape(k)), category))
  }

  lemma {:induction false} VisitedNext(shallow: Members, now: Members, rest: set<string>, path: string, category: string,
                                       key: string, child: Value)
    requires Visiting(shallow, now, rest, path, category) && key in rest
    requires Adapted(shallow[key], child, Join(path, Escape(key)), category)
    ensures Visiting(shallow, now[key := child], rest - {key}, path, category)
  {
  }

  /** When every member has been visited, dropping the elements that became empty leaves an object on the surface. */
  lemma {:induction false} VisitedOnSurface(shallow: Members, now: Members, out: Members, path: string, category: string)
    requires SurfaceHere(shallow, path, category) && Visiting(shallow, now, {}, path, category)
    requires out == now - EmptyOptionals(now)
    ensures OnSurface(Obj(out), path, category)
  {
    hide MemberFits, Unbound, IsEmptyOptional, Alike, Remains;
    forall k | k in out
      ensures MemberFits(k, out[k], path, category) && !Unbound(k, path, category) && !IsEmptyOptional(k, out[k])
    {
      assert Adapted(shallow[k], now[k], Join(path, Escape(k)), category);
      AlikeFits(k, shallow[k], now[k], path, category);
    }
  }

  /** What is known of one member once all are visited. */
  lemma {:induction false} VisitedMember(shallow: Members, now: Members, path: string, category: string, k: string)
    requires Visiting(shallow, now, {}, path, category) && (k in shallow || k in now)
    ensures k in shallow && k in now && Alike(shallow[k], now[k]) && (HasElement(shallow[k]) <==> HasElement(now[k]))
    ensures shallow[k].Obj? ==> now[k].members.Keys == Remains(shallow[k], Join(path, Escape(k)), category)
    ensures Corresponds(shallow[k], now[k], Join(path, Escape(k)), category)
  {
    hide OnSurface, HasElement, Alike, Remains, Corresponds;
    assert Adapted(shallow[k], now[k], Join(path, Escape(k)), category);
  }

  lemma {:induction false} VisitedLang(shallow: Members, now: Members, out: Members, path: string, category: string)
    requires Visiting(shallow, now, {}, path, category) && out == now - EmptyOptionals(now)
    ensures SameLang(shallow, out)
  {
    hide Visiting, Remains;
    assert "@xml:lang" !in OPTIONAL_ELEMENTS;
    if "@xml:lang" in shallow || "@xml:lang" in now {
      VisitedMember(shallow, now, path, category, "@xml:lang");
    }
  }

  /** The members that are left are the ones the source says remain. */
  lemma {:induction false} VisitedRemains(node: Members, shallow: Members, now: Members, out: Members, path: string, category: string)
    requires shallow == Shallow(node, path, category)
    requires Visiting(shallow, now, {}, path, category) && out == now - EmptyOptionals(now)
    ensures out.Keys == Remains(Obj(node), path, category)
  {
    hide Shallow, Visiting, Alike;
    forall k
      ensures k in out <==> k in Remains(Obj(node), path, category)
    {
      if k in shallow || k in now {
        VisitedMember(shallow, now, path, category, k);
        RemovedOrHollow(node, shallow, now, path, category, k);
      }
    }
  }

  lemma {:induction false} RemovedOrHollow(node: Members, shallow: Members, now: Members, path: string, category: string, k: string)
    requires shallow == Shallow(node, path, category) && k in shallow && k in now && Alike(shallow[k], now[k])
    requires shallow[k].Obj? ==> now[k].members.Keys == Remains(shallow[k], Join(path, Escape(k)), category)
    ensures IsEmptyOptional(k, now[k])
       <==> k in node && node[k].Obj? && Hollow(k, Remains(node[k], Join(path, Escape(k)), category))
  {
    hide Shallow, Remains;
    if k in OPTIONAL_ELEMENTS {
      OptionalCarried(node, path, category, k);
      if shallow[k].Obj? {
        var names := now[k].members.Keys;
        assert now[k].members == map[] <==> names == {};
        assert forall name :: name in now[k].members <==> name in names;
      }
    }
  }

  // ---------- what is lost and what text keeps, member by member ----------

  /** Some visited member loses something that no fragment holds. */
  ghost predicate LosesMember(shallow: Members, R: Patch, ts: Path, path: string, category: string, visited: set<string>) {
    exists k :: k in visited && k in shallow && !Held(R, ts + [k]) && Exposed(shallow[k], Join(path, Escape(k)), category)
  }

  lemma {:induction false} LosesNext(shallow: Members, R: Patch, ts: Path, path: string, category: string,
                                     visited: set<string>, key: string)
    requires key in shallow
    ensures LosesMember(shallow, R, ts, path, category, visited + {key})
       <==> LosesMember(shallow, R, ts, path, category, visited)
            || (!Held(R, ts + [key]) && Exposed(shallow[key], Join(path, Escape(key)), category))
  {
    hide Held, Exposed;
    if LosesMember(shallow, R, ts, path, category, visited) {
      var k :| k in visited && k in shallow && !Held(R, ts + [k]) && Exposed(shallow[k], Join(path, Escape(k)), category);
      assert k in visited + {key};
    }
    if !Held(R, ts + [key]) && Exposed(shallow[key], Join(path, Escape(key)), category) {
      assert key in visited + {key};
    }
  }

  /** Below members not yet visited nothing new is recorded; visited members are as the source says, unless held. */
  ghost predicate Halfway(shallow: Members, R1: Patch, now: Members, R: Patch, rest: set<string>, ts: Path, path: string,
                          category: string) {
    AgreeOutside(R1, R, ts) && (ts in R1 <==> ts in R)
    && (forall k :: ts + [k] in R1 ==> ts + [k] in R)
    && (forall k :: k in rest ==> Agree(R1, R, ts + [k]))
    && (forall k :: k in now && k !in rest ==>
          k in shallow && (Held(R1, ts + [k]) || Tracks(shallow[k], now[k], R, ts + [k], Join(path, Escape(k)), category)))
  }

  lemma {:induction false} HalfwayStart(shallow: Members, R: Patch, ts: Path, path: string, category: string)
    ensures Halfway(shallow, R, shallow, R, shallow.Keys, ts, path, category)
  {
  }

  /** A member not yet visited is as fresh as it was. */
  lemma {:induction false} StillFreshChild(shallow: Members, L1: Log, now: Members, L: Log, rest: set<string>, ts: Path,
                                           path: string, category: string, key: string)
    requires Halfway(shallow, L1.fragments, now, L.fragments, rest, ts, path, category) && key in rest
    requires Fresh(L1, ts + [key]) && NonNested(L.fragments)
    ensures Fresh(L, ts + [key])
    ensures Held(L.fragments, ts + [key]) <==> Held(L1.fragments, ts + [key])
    ensures Held(L.fragments, ts) <==> Held(L1.fragments, ts)
  {
    hide Tracks;
    var p := ts + [key];
    assert p <= p;
    assert Agree(L1.fragments, L.fragments, p);
    CoveredOutside(L1.fragments, L.fragments, ts);
    CoveredChild(L1.fragments, ts, key);
    CoveredChild(L.fragments, ts, key);
  }

  lemma {:induction false} SiblingsAgree(R: Patch, R': Patch, ts: Path, key: string)
    requires AgreeOutside(R, R', ts + [key])
    ensures forall k :: k != key ==> Agree(R, R', ts + [k]) && (ts + [k] in R <==> ts + [k] in R')
  {
    forall k | k != key
      ensures Agree(R, R', ts + [k]) && (ts + [k] in R <==> ts + [k] in R')
    {
      SiblingAgree(R, R', ts, key, k);
      assert ts + [k] <= ts + [k];
    }
  }

  lemma {:induction false} HalfwayNext(shallow: Members, R1: Patch, now: Members, R: Patch, rest: set<string>, ts: Path, path: string,
                                       category: string, key: string, child: Value, R': Patch)
    requires Halfway(shallow, R1, now, R, rest, ts, path, category) && key in rest && key in shallow
    requires AgreeOutside(R, R', ts + [key]) && (Held(R, ts + [key]) ==> R' == R)
    requires Held(R, ts + [key]) || Tracks(shallow[key], child, R', ts + [key], Join(path, Escape(key)), category)
    requires Held(R, ts + [key]) <==> Held(R1, ts + [key])
    ensures Halfway(shallow, R1, now[key := child], R', rest - {key}, ts, path, category)
  {
    hide Tracks, Agree, Escape;
    var now' := now[key := child];
    OutsideParent(R, R', ts, key);
    OutsideTrans(R1, R, R', ts);
    SiblingsAgree(R, R', ts, key);
    assert ts + [key] in R ==> R' == R;
    hide Held, Overlay.Covered, AgreeOutside;
    forall k | k in rest - {key}
      ensures Agree(R1, R', ts + [k])
    {
      AgreeTrans(R1, R, R', ts + [k]);
    }
    forall k | k in now' && k !in rest - {key}
      ensures Held(R1, ts + [k]) || Tracks(shallow[k], now'[k], R', ts + [k], Join(path, Escape(k)), category)
    {
      if k != key && !Held(R1, ts + [k]) {
        AgreeTracks(shallow[k], now[k], R, R', ts + [k], Join(path, Escape(k)), category);
      }
    }
    forall k | ts + [k] in R1
      ensures ts + [k] in R'
    {
      assert k != key ==> (ts + [k] in R <==> ts + [k] in R');
    }
  }

  lemma {:induction false} AgreeTrans(R: Patch, S: Patch, T: Patch, ts: Path)
    requires Agree(R, S, ts) && Agree(S, T, ts)
    ensures Agree(R, T, ts)
  {
  }

  /** What one more member adds: to what is lost, and to what is recorded. */
  lemma {:induction false} MemberVisited(shallow: Members, L1: Log, before: Members, L: Log, rest: set<string>, visited: set<string>,
                                         ts: Path, path: string, category: string, key: string, child: Value, L2: Log, lost: bool)
    requires key in rest && key in shallow && key in before && before[key] == shallow[key]
    requires Halfway(shallow, L1.fragments, before, L.fragments, rest, ts, path, category)
    requires Held(L.fragments, ts + [key]) <==> Held(L1.fragments, ts + [key])
    requires Passed(Obj(shallow), L1, Obj(before), L, ts, lost) && lost == LosesMember(shallow, L1.fragments, ts, path, category, visited)
    requires Passed(before[key], L, child, L2, ts + [key],
                    !Held(L.fragments, ts + [key]) && Exposed(before[key], Join(path, Escape(key)), category))
    requires Held(L.fragments, ts + [key]) || Tracks(before[key], child, L2.fragments, ts + [key], Join(path, Escape(key)), category)
    ensures Passed(Obj(shallow), L1, Obj(before[key := child]), L2, ts,
                   LosesMember(shallow, L1.fragments, ts, path, category, visited + {key}))
    ensures Halfway(shallow, L1.fragments, before[key := child], L2.fragments, rest - {key}, ts, path, category)
  {
    hide Passed, Halfway, LosesMember, Exposed, Held, Tracks, Escape;
    var gone := !Held(L.fragments, ts + [key]) && Exposed(before[key], Join(path, Escape(key)), category);
    PassedSure(Obj(shallow), L1, Obj(before), L, ts, lost);
    PassedFaded(before[key], L, child, L2, ts + [key], gone);
    PassedMember(before, L, key, child, L2, ts, gone);
    PassedTrans(Obj(shallow), L1, Obj(before), L, Obj(before[key := child]), L2, ts, lost, gone);
    LosesNext(shallow, L1.fragments, ts, path, category, visited, key);
    HalfwayNext(shallow, L1.fragments, before, L.fragments, rest, ts, path, category, key, child, L2.fragments);
  }

  /** Visits every member of an object, in any order. */
  method AdaptMembers(shallow: Members, path: string, ghost ts: Path, category: string, recovery: RecoveryBuilder,
                      ghost d: nat, ghost e: nat)
    returns (now: Members)
    requires recovery.Valid() && path == Encode(ts) && Adaptable(Obj(shallow), recovery.State(), ts)
    requires forall k :: Fresh(recovery.State(), ts + [k])
    requires d > 0 && Within(Obj(shallow), d) && e == d + Allowance(|ts| + 1)
    modifies recovery
    ensures recovery.Valid() && Within(Obj(now), e)
    ensures Passed(Obj(shallow), old(recovery.State()), Obj(now), recovery.State(), ts,
                   LosesMember(shallow, old(recovery.State()).fragments, ts, path, category, shallow.Keys))
    ensures Visiting(shallow, now, {}, path, category)
    ensures Halfway(shallow, old(recovery.State()).fragments, now, recovery.State().fragments, {}, ts, path, category)
    decreases e - 1, 2
  {
    hide *;
    ghost var L1 := recovery.State();
    now := shallow;
    var rest := shallow.Keys;
    UnderwayAtFirst(shallow, L1, ts, path, category, d, e);
    while rest != {}
      invariant recovery.Valid() && rest <= shallow.Keys
      invariant Underway(shallow, L1, now, recovery.State(), rest, ts, path, category, e)
      decreases |rest|
    {
      var key :| key in rest;
      ghost var before, L := now, recovery.State();
      UnderwayAt(shallow, L1, now, L, rest, ts, path, category, d, e, key);
      EncodeChild(ts, key);
      LowerAllowance(ts, key, d, e);
      var child := AdaptValue(now[key], Join(path, Escape(key)), ts + [key], category, recovery, d - 1);
      UnderwayNext(shallow, L1, before, L, rest, ts, path, category, d, e, key, child, recovery.State());
      now := now[key := child];
      rest := rest - {key};
    }
    UnderwayAtLast(shallow, L1, now, recovery.State(), ts, path, category, e);
  }

  /** The members that are not in `rest` have been visited; `e` is how deep the object may be. */
  ghost predicate Underway(shallow: Members, L1: Log, now: Members, L: Log, rest: set<string>, ts: Path, path: string,
                           category: string, e: nat) {
    && Within(Obj(now), e) && Visiting(shallow, now, rest, path, category)
    && Passed(Obj(shallow), L1, Obj(now), L, ts, LosesMember(shallow, L1.fragments, ts, path, category, shallow.Keys - rest))
    && Halfway(shallow, L1.fragments, now, L.fragments, rest, ts, path, category)
  }

  lemma {:induction false} UnderwayAtFirst(shallow: Members, L: Log, ts: Path, path: string, category: string, d: nat, e: nat)
    requires Adaptable(Obj(shallow), L, ts) && Within(Obj(shallow), d) && d <= e
    ensures Underway(shallow, L, shallow, L, shallow.Keys, ts, path, category, e)
  {
    hide Adaptable, Passed, Within, Visiting, Halfway, LosesMember;
    DeeperBy(Obj(shallow), d, e);
    NothingPassed(shallow, L, ts, path, category);
    VisitingNone(shallow, path, category);
    HalfwayStart(shallow, L.fragments, ts, path, category);
    assert shallow.Keys - shallow.Keys == {};
  }

  lemma {:induction false} UnderwayAtLast(shallow: Members, L1: Log, now: Members, L: Log, ts: Path, path: string, category: string, e: nat)
    requires Underway(shallow, L1, now, L, {}, ts, path, category, e)
    ensures Within(Obj(now), e) && Visiting(shallow, now, {}, path, category)
    ensures Passed(Obj(shallow), L1, Obj(now), L, ts, LosesMember(shallow, L1.fragments, ts, path, category, shallow.Keys))
    ensures Halfway(shallow, L1.fragments, now, L.fragments, {}, ts, path, category)
  {
    hide Passed, Within, Visiting, Halfway, LosesMember;
    assert shallow.Keys - {} == shallow.Keys;
  }

  /** The next member is as it was, and nothing at or below it has been recorded since. */
  lemma {:induction false} UnderwayAt(shallow: Members, L1: Log, now: Members, L: Log, rest: set<string>, ts: Path, path: string,
                                      category: string, d: nat, e: nat, key: string)
    requires Underway(shallow, L1, now, L, rest, ts, path, category, e) && key in rest && Within(Obj(shallow), d)
    requires forall k :: Fresh(L1, ts + [k])
    ensures key in now && key in shallow && now[key] == shallow[key] && d > 0 && Within(now[key], d - 1)
    ensures Fresh(L, ts + [key])
    ensures Held(L.fragments, ts + [key]) <==> Held(L1.fragments, ts + [key])
  {
    hide Passed, Within, Visiting, Halfway, LosesMember, Fresh, Held;
    NotYetVisited(shallow, now, rest, path, category, key, d);
    PassedSure(Obj(shallow), L1, Obj(now), L, ts, LosesMember(shallow, L1.fragments, ts, path, category, shallow.Keys - rest));
    StillFreshChild(shallow, L1, now, L, rest, ts, path, category, key);
  }

  lemma LowerAllowance(ts: Path, key: string, d: nat, e: nat)
    requires e == d + Allowance(|ts| + 1)
    ensures d > 0 ==> d - 1 + Allowance(|ts + [key]|) == e - 1
  {
  }

  lemma {:induction false} UnderwayNext(shallow: Members, L1: Log, now: Members, L: Log, rest: set<string>, ts: Path, path: string,
                                        category: string, d: nat, e: nat, key: string, child: Value, L2: Log)
    requires Underway(shallow, L1, now, L, rest, ts, path, category, e) && key in rest && rest <= shallow.Keys
    requires key in now && key in shallow && now[key] == shallow[key]
    requires Held(L.fragments, ts + [key]) <==> Held(L1.fragments, ts + [key])
    requires e > 0 && Within(child, e - 1) && Adapted(now[key], child, Join(path, Escape(key)), category)
    requires Passed(now[key], L, child, L2, ts + [key],
                    !Held(L.fragments, ts + [key]) && Exposed(now[key], Join(path, Escape(key)), category))
    requires Held(L.fragments, ts + [key]) || Tracks(now[key], child, L2.fragments, ts + [key], Join(path, Escape(key)), category)
    ensures Underway(shallow, L1, now[key := child], L2, rest - {key}, ts, path, category, e)
  {
    hide Passed, Within, Visiting, Halfway, LosesMember, Adapted, Held, Exposed, Tracks, Escape;
    var visited := shallow.Keys - rest;
    MemberVisited(shallow, L1, now, L, rest, visited, ts, path, category, key, child, L2,
                  LosesMember(shallow, L1.fragments, ts, path, category, visited));
    VisitedNext(shallow, now, rest, path, category, key, child);
    MemberWithin(now, key, child, e);
    assert visited + {key} == shallow.Keys - (rest - {key});
  }

  lemma {:induction false} NothingPassed(shallow: Members, L: Log, ts: Path, path: string, category: string)
    requires Adaptable(Obj(shallow), L, ts)
    ensures !LosesMember(shallow, L.fragments, ts, path, category, {})
    ensures Passed(Obj(shallow), L, Obj(shallow), L, ts, LosesMember(shallow, L.fragments, ts, path, category, {}))
  {
    PassedRefl(Obj(shallow), L, ts);
  }

  lemma {:induction false} PassedSure(v: Value, L0: Log, w: Value, L1: Log, ts: Path, lost: bool)
    requires Passed(v, L0, w, L1, ts, lost)
    ensures Sure(w, L1.fragments, ts) && NonNested(L1.fragments)
  {
  }

  lemma {:induction false} MemberWithin(now: Members, key: string, child: Value, e: nat)
    requires Within(Obj(now), e) && e > 0 && Within(child, e - 1)
    ensures Within(Obj(now[key := child]), e)
  {
  }

  /** The members of an object that the steps before have left: each is recorded, or nothing below it is. */
  lemma {:induction false} MembersFresh(node: Members, L0: Log, shallow: Members, L1: Log, ts: Path)
    requires Fresh(L0, ts) && NonNested(L1.fragments) && Marks(node, L0.fragments, shallow, L1.fragments, ts)
    requires Held(L0.fragments, ts) ==> Held(L1.fragments, ts)
    ensures forall k :: Fresh(L1, ts + [k])
  {
    var R0, R1 := L0.fragments, L1.fragments;
    forall k
      ensures Fresh(L1, ts + [k])
    {
      CoveredChild(R1, ts, k);
      if !Held(R1, ts) {
        assert ts + [k] in R1 || Agree(R0, R1, ts + [k]);
        ClearChild(R0, ts, k);
      }
    }
  }

  /** What is lost from an object, before and below its members, is what its source exposes. */
  lemma {:induction false} ExposedObject(node: Members, L0: Log, shallow: Members, L1: Log, ts: Path, path: string, category: string)
    requires Fresh(L0, ts) && shallow == Shallow(node, path, category)
    requires Marks(node, L0.fragments, shallow, L1.fragments, ts)
    requires Held(L1.fragments, ts) <==> Held(L0.fragments, ts) || Renames(node, path, category)
    ensures (RemovesZero(node, path, category) && !Held(L0.fragments, ts))
            || LosesMember(shallow, L1.fragments, ts, path, category, shallow.Keys)
       <==> !Held(L0.fragments, ts) && Exposed(Obj(node), path, category)
  {
    hide Shallow, Renames;
    var R0, R1 := L0.fragments, L1.fragments;
    forall k
      ensures Held(R1, ts + [k]) <==> Held(R1, ts) || ts + [k] in R1
    {
      CoveredChild(R1, ts, k);
    }
    if !Held(R1, ts) {
      forall k | k in shallow && Exposed(shallow[k], Join(path, Escape(k)), category)
        ensures !Held(R1, ts + [k]) <==> Unmarked(node, k, path, category)
      {
        MarkedMember(node, R0, shallow, R1, ts, k);
      }
      LosesUnmarked(node, shallow, R1, ts, path, category);
    }
  }

  lemma {:induction false} MarkedMember(node: Members, R0: Patch, shallow: Members, R1: Patch, ts: Path, k: string)
    requires Marks(node, R0, shallow, R1, ts) && !Held(R1, ts) && Clear(R0, ts) && k in shallow
    ensures k in node && (ts + [k] in R1 <==> node[k] != shallow[k])
  {
    assert ts <= ts + [k];
    assert MemberMarked(node[k], shallow[k], ts + [k], R0, R1);
  }

  lemma {:induction false} LosesUnmarked(node: Members, shallow: Members, R1: Patch, ts: Path, path: string, category: string)
    requires shallow == Shallow(node, path, category)
    requires forall k :: k in shallow && Exposed(shallow[k], Join(path, Escape(k)), category) ==>
               (!Held(R1, ts + [k]) <==> Unmarked(node, k, path, category))
    ensures LosesMember(shallow, R1, ts, path, category, shallow.Keys)
       <==> exists k :: k in node && Unmarked(node, k, path, category) && Exposed(node[k], Join(path, Escape(k)), category)
  {
    hide Shallow, Held, Exposed;
    if LosesMember(shallow, R1, ts, path, category, shallow.Keys) {
      var k :| k in shallow && !Held(R1, ts + [k]) && Exposed(shallow[k], Join(path, Escape(k)), category);
      assert Unmarked(node, k, path, category);
    }
    if k :| k in node && Unmarked(node, k, path, category) && Exposed(node[k], Join(path, Escape(k)), category) {
      assert k in shallow && shallow[k] == node[k];
      assert k in shallow.Keys;
    }
  }

  /** The adapted object is what the source says, if nothing held it. */
  lemma {:induction false} ObjectTracks(node: Members, L0: Log, shallow: Members, L1: Log, now: Members, L2: Log, out: Members, L3: Log,
                                        ts: Path, path: string, category: string)
    requires Fresh(L0, ts) && shallow == Shallow(node, path, category) && Visiting(shallow, now, {}, path, category)
    requires Marks(node, L0.fragments, shallow, L1.fragments, ts)
    requires Held(L1.fragments, ts) <==> Held(L0.fragments, ts) || Renames(node, path, category)
    requires Halfway(shallow, L1.fragments, now, L2.fragments, {}, ts, path, category)
    requires Marks(now, L2.fragments, out, L3.fragments, ts) && out == now - EmptyOptionals(now)
    requires out.Keys == Remains(Obj(node), path, category)
    requires ts in L1.fragments <==> ts in L0.fragments || (Renames(node, path, category) && !Covered(L0.fragments, ts))
    requires ts in L3.fragments <==> ts in L2.fragments
    requires AgreeOutside(L0.fragments, L3.fragments, ts)
    requires !Held(L0.fragments, ts)
    ensures Tracks(Obj(node), Obj(out), L3.fragments, ts, path, category)
  {
    hide Shallow, Renames, Remains, EmptyOptionals, Visiting, Tracks, Unmarked, Marks, Halfway, NonNested, ScalarsKept;
    var R0, R1, R2, R3 := L0.fragments, L1.fragments, L2.fragments, L3.fragments;
    CoveredOutside(R0, R3, ts);
    HalfwayFrame(shallow, R1, now, R2, ts, path, category);
    SameNames(shallow, now, path, category);
    assert ts in R3 <==> Renames(node, path, category);
    if !Renames(node, path, category) {
      assert !Held(R1, ts) && !Held(R3, ts) && Clear(R0, ts);
      ArraysFromArrays(node, R0, shallow, R1, now, out, ts, path, category);
      hide Held, Overlay.Covered, AgreeOutside, Clear, Fresh;
      forall k | k in node
        ensures if Unmarked(node, k, path, category) && k in out
                then Tracks(node[k], out[k], R3, ts + [k], Join(path, Escape(k)), category)
                else ts + [k] in R3
      {
        if Unmarked(node, k, path, category) && k in out {
          MemberTracks(node, R0, shallow, R1, now, R2, out, R3, ts, path, category, k);
        } else {
          MemberRecorded(node, R0, shallow, R1, now, R2, out, R3, ts, path, category, k);
        }
      }
    }
    KindsKept(node, shallow, now, out, path, category);
    TracksObject(node, out, R3, ts, path, category);
  }

  lemma {:induction false} KindsKept(node: Members, shallow: Members, now: Members, out: Members, path: string, category: string)
    requires shallow == Shallow(node, path, category) && Visiting(shallow, now, {}, path, category)
    requires out == now - EmptyOptionals(now)
    ensures ScalarsKept(Shallow(node, path, category), out)
  {
    hide Shallow, EmptyOptionals, Visiting, HasElement, Remains;
    forall k | k in out
      ensures k in shallow
      ensures if Nests(shallow[k]) then Nests(out[k]) && (HasElement(out[k]) <==> HasElement(shallow[k])) else out[k] == shallow[k]
    {
      VisitedMember(shallow, now, path, category, k);
    }
  }

  lemma {:induction false} HalfwayFrame(shallow: Members, R1: Patch, now: Members, R2: Patch, ts: Path, path: string, category: string)
    requires Halfway(shallow, R1, now, R2, {}, ts, path, category)
    ensures AgreeOutside(R1, R2, ts) && (ts in R1 <==> ts in R2)
  {
  }

  lemma {:induction false} ArraysFromArrays(node: Members, R0: Patch, shallow: Members, R1: Patch, now: Members, out: Members, ts: Path,
                                            path: string, category: string)
    requires Marks(node, R0, shallow, R1, ts) && !Held(R1, ts)
    requires Visiting(shallow, now, {}, path, category) && out == now - EmptyOptionals(now)
    ensures ArraysKept(node, out)
  {
    hide Visiting, EmptyOptionals, HasElement, Remains;
    forall k | k in out
      ensures k in node && (out[k].Arr? ==> node[k].Arr?)
    {
      VisitedMember(shallow, now, path, category, k);
      if out[k].Arr? {
        assert MemberMarked(node[k], shallow[k], ts + [k], R0, R1);
        SizePositive(shallow[k]);
      }
    }
  }

  lemma {:induction false} TracksObject(node: Members, out: Members, R: Patch, ts: Path, path: string, category: string)
    requires out.Keys == Remains(Obj(node), path, category) && ScalarsKept(Shallow(node, path, category), out)
    requires ts in R <==> Renames(node, path, category)
    requires ts !in R ==> ArraysKept(node, out) && forall k :: k in node ==>
               if Unmarked(node, k, path, category) && k in out
               then Tracks(node[k], out[k], R, ts + [k], Join(path, Escape(k)), category)
               else ts + [k] in R
    ensures Tracks(Obj(node), Obj(out), R, ts, path, category)
  {
    hide Remains, Renames, Unmarked, Shallow, ScalarsKept, ArraysKept;
  }

  /** A member that the steps leave alone, and that stays. */
  lemma {:induction false} MemberTracks(node: Members, R0: Patch, shallow: Members, R1: Patch, now: Members, R2: Patch, out: Members,
                                        R3: Patch, ts: Path, path: string, category: string, k: string)
    requires shallow == Shallow(node, path, category) && Visiting(shallow, now, {}, path, category)
    requires Marks(node, R0, shallow, R1, ts) && Clear(R0, ts) && !Held(R1, ts)
    requires Halfway(shallow, R1, now, R2, {}, ts, path, category)
    requires Marks(now, R2, out, R3, ts) && !Held(R3, ts) && out == now - EmptyOptionals(now)
    requires Unmarked(node, k, path, category) && k in out
    ensures Tracks(node[k], out[k], R3, ts + [k], Join(path, Escape(k)), category)
  {
    hide Shallow, EmptyOptionals, Visiting, Tracks;
    VisitedMember(shallow, now, path, category, k);
    assert shallow[k] == node[k] && out[k] == now[k];
    var p := ts + [k];
    assert p <= p;
    MarkedMember(node, R0, shallow, R1, ts, k);
    CoveredChild(R1, ts, k);
    assert Tracks(shallow[k], now[k], R2, p, Join(path, Escape(k)), category);
    assert MemberMarked(now[k], out[k], p, R2, R3);
    assert p in R3 || Agree(R2, R3, p);
    AgreeTracks(node[k], out[k], R2, R3, p, Join(path, Escape(k)), category);
  }

  lemma FreshTracks(v: Value, L: Log, ts: Path, path: string, category: string)
    requires !Nests(v) && Fresh(L, ts) && !Held(L.fragments, ts)
    ensures Tracks(v, v, L.fragments, ts, path, category)
  {
    assert ts <= ts;
  }

  /** A member that the steps change or remove. */
  lemma {:induction false} MemberRecorded(node: Members, R0: Patch, shallow: Members, R1: Patch, now: Members, R2: Patch, out: Members,
                                          R3: Patch, ts: Path, path: string, category: string, k: string)
    requires shallow == Shallow(node, path, category) && now.Keys == shallow.Keys
    requires Marks(node, R0, shallow, R1, ts) && !Held(R1, ts)
    requires Halfway(shallow, R1, now, R2, {}, ts, path, category)
    requires Marks(now, R2, out, R3, ts) && !Held(R3, ts)
    requires k in node && !(Unmarked(node, k, path, category) && k in out)
    ensures ts + [k] in R3
  {
    hide Shallow, Tracks;
    var p := ts + [k];
    assert p <= p;
    assert p in R3 || Agree(R2, R3, p);
    assert (k in shallow && shallow[k] == node[k]) || p in R1;
    if k in shallow && shallow[k] == node[k] {
      assert Unmarked(node, k, path, category);
      assert k in now && k !in out;
    }
  }

  method AdaptObject(node: Members, path: string, ghost ts: Path, category: string, recovery: RecoveryBuilder, ghost d: nat)
    returns (out: Members)
    requires recovery.Valid() && path == Encode(ts) && Fresh(recovery.State(), ts)
    requires Within(Obj(node), d)
    modifies recovery
    ensures recovery.Valid() && Within(Obj(out), d + Allowance(|ts|))
    ensures Passed(Obj(node), old(recovery.State()), Obj(out), recovery.State(), ts,
                   !Held(old(recovery.State()).fragments, ts) && Exposed(Obj(node), path, category))
    ensures Adapted(Obj(node), Obj(out), path, category)
    ensures Held(old(recovery.State()).fragments, ts)
            || Tracks(Obj(node), Obj(out), recovery.State().fragments, ts, path, category)
    decreases d + Allowance(|ts|), 0
  {
    hide Sound, Went, Passed, Adaptable, Within, RecoveryBuilder.Valid, RecoveryBuilder.State, Visiting, Shallow, OnSurface,
      EmptyOptionals, SurfaceHere, IsExchangePath, Escape, Alike, SameLang, Fresh, Marks, Halfway, LosesMember, Exposed, Held, Tracks,
      Remains, Renames, RemovesZero, Overlay.Covered, NonNested, HasElement, Adapted, Corresponds;
    ghost var L0 := recovery.State();
    var shallow, deep := AdaptShallow(node, path, ts, category, recovery, d);
    ghost var L1 := recovery.State();
    if IsExchangePath(path) {
      ExchangeDepth(ts);
    }
    ghost var e := deep + Allowance(|ts| + 1);
    ghost var first := RemovesZero(node, path, category) && !Held(L0.fragments, ts);
    ghost var below := LosesMember(shallow, L1.fragments, ts, path, category, shallow.Keys);
    WentGives(node, L0, shallow, L1, ts, deep, Renames(node, path, category), first);
    PassedSure(Obj(node), L0, Obj(shallow), L1, ts, first);
    MembersFresh(node, L0, shallow, L1, ts);
    WithinPositive(shallow, deep);
    WithinPositive(node, d);
    var now := AdaptMembers(shallow, path, ts, category, recovery, deep, e);
    ghost var L2 := recovery.State();
    PassedSure(Obj(shallow), L1, Obj(now), L2, ts, below);
    SureAdaptable(Obj(now), L2, ts);
    out := RemoveEmptyOptionalChildren(now, path, ts, recovery, e);
    ghost var L3 := recovery.State();
    SoundWent(now, L2, out, L3, ts, e);
    WentGives(now, L2, out, L3, ts, e, false, false);
    DeeperBy(Obj(out), e, d + Allowance(|ts|));
    ObjectDone(node, shallow, now, out, path, category);
    ObjectPassed(node, L0, shallow, L1, now, L2, out, L3, ts, path, category);
    if !Held(L0.fragments, ts) {
      ObjectTracks(node, L0, shallow, L1, now, L2, out, L3, ts, path, category);
    }
  }

  /** The three stages of adapting an object, together. */
  lemma {:induction false} ObjectPassed(node: Members, L0: Log, shallow: Members, L1: Log, now: Members, L2: Log, out: Members, L3: Log,
                                        ts: Path, path: string, category: string)
    requires Fresh(L0, ts) && shallow == Shallow(node, path, category)
    requires Marks(node, L0.fragments, shallow, L1.fragments, ts)
    requires Held(L1.fragments, ts) <==> Held(L0.fragments, ts) || Renames(node, path, category)
    requires Passed(Obj(node), L0, Obj(shallow), L1, ts, RemovesZero(node, path, category) && !Held(L0.fragments, ts))
    requires Passed(Obj(shallow), L1, Obj(now), L2, ts, LosesMember(shallow, L1.fragments, ts, path, category, shallow.Keys))
    requires Passed(Obj(now), L2, Obj(out), L3, ts, false) && Adapted(Obj(node), Obj(out), path, category)
    ensures Passed(Obj(node), L0, Obj(out), L3, ts, !Held(L0.fragments, ts) && Exposed(Obj(node), path, category))
    ensures AgreeOutside(L0.fragments, L3.fragments, ts) && out.Keys == Remains(Obj(node), path, category)
  {
    hide Passed, Shallow, Fresh, Marks, LosesMember, Exposed, Held, Remains, Renames, RemovesZero, OnSurface, Alike, HasElement;
    var first := RemovesZero(node, path, category) && !Held(L0.fragments, ts);
    var below := LosesMember(shallow, L1.fragments, ts, path, category, shallow.Keys);
    PassedTrans(Obj(node), L0, Obj(shallow), L1, Obj(now), L2, ts, first, below);
    PassedTrans(Obj(node), L0, Obj(now), L2, Obj(out), L3, ts, first || below, false);
    ExposedObject(node, L0, shallow, L1, ts, path, category);
    PassedFaded(Obj(node), L0, Obj(out), L3, ts, first || below);
  }

  lemma SureAdaptable(v: Value, L: Log, ts: Path)
    requires Sure(v, L.fragments, ts)
    ensures Adaptable(v, L, ts)
  {
  }

  lemma SameNames(shallow: Members, now: Members, path: string, category: string)
    requires Visiting(shallow, now, {}, path, category)
    ensures now.Keys == shallow.Keys
  {
  }

  lemma {:induction false} ObjectDone(node: Members, shallow: Members, now: Members, out: Members, path: string, category: string)
    requires shallow == Shallow(node, path, category)
    requires Visiting(shallow, now, {}, path, category) && out == now - EmptyOptionals(now)
    ensures Adapted(Obj(node), Obj(out), path, category)
  {
    hide Shallow, OnSurface, EmptyOptionals, SurfaceHere, Visiting, HasElement, Remains;
    ShallowOnSurface(node, path, category);
    ShallowLang(node, path, category);
    VisitedOnSurface(shallow, now, out, path, category);
    VisitedLang(shallow, now, out, path, category);
    VisitedRemains(node, shallow, now, out, path, category);
    ObjectCorresponds(node, shallow, now, out, path, category);
    AdaptedObject(node, out, path, category);
  }

  lemma {:induction false} AdaptedObject(node: Members, out: Members, path: string, category: string)
    requires SameLang(node, out) && OnSurface(Obj(out), path, category)
    requires out.Keys == Remains(Obj(node), path, category) && Corresponds(Obj(node), Obj(out), path, category)
    ensures Adapted(Obj(node), Obj(out), path, category)
  {
    hide Remains, Corresponds;
  }

  /** Each member that is left was made of a member of the source, and projected. */
  lemma {:induction false} ObjectCorresponds(node: Members, shallow: Members, now: Members, out: Members, path: string, category: string)
    requires shallow == Shallow(node, path, category) && Visiting(shallow, now, {}, path, category)
    requires out == now - EmptyOptionals(now)
    ensures Corresponds(Obj(node), Obj(out), path, category)
  {
    hide Shallow, Visiting, EmptyOptionals, Remains, HasElement, MemberMade;
    forall k | k in out
      ensures MemberCorresponds(node, k, out[k], path, category)
    {
      VisitedMember(shallow, now, path, category, k);
      ShallowIsMade(node, path, category, k, shallow[k]);
      hide Corresponds;
    }
    LinkStays(node, shallow, now, out, path, category);
    AllStay(node, shallow, now, out, path, category);
    hide MemberCorresponds, LinkKept, NoneMissing;
  }

  lemma {:induction false} AllStay(node: Members, shallow: Members, now: Members, out: Members, path: string, category: string)
    requires shallow == Shallow(node, path, category) && Visiting(shallow, now, {}, path, category)
    requires out == now - EmptyOptionals(now)
    ensures NoneMissing(node, out, path, category)
  {
    hide Shallow, Visiting, Remains, HasElement, MemberMade, Corresponds;
    forall k, y | MemberMade(node, k, y, path, category) && k !in out
      ensures k in OPTIONAL_ELEMENTS && y.Obj?
    {
      ShallowIsMade(node, path, category, k, y);
      VisitedMember(shallow, now, path, category, k);
    }
  }

  /** The names of a projected object: those of the members that the rules make, but for optional elements that have
      become empty. */
  lemma {:induction false} RemainsAreMade(m: Members, path: string, category: string, k: string)
    ensures k in Remains(Obj(m), path, category) <==>
            (exists y :: MemberMade(m, k, y, path, category)) &&
            !(k in m && m[k].Obj? && Hollow(k, Remains(m[k], Join(path, Escape(k)), category)))
  {
    hide Shallow, MemberMade;
    forall y
      ensures MemberMade(m, k, y, path, category) <==>
              k in Shallow(m, path, category) && Shallow(m, path, category)[k] == y
    {
      ShallowIsMade(m, path, category, k, y);
    }
    if k in Shallow(m, path, category) {
      assert MemberMade(m, k, Shallow(m, path, category)[k], path, category);
    }
  }

  lemma {:induction false} LinkStays(node: Members, shallow: Members, now: Members, out: Members, path: string, category: string)
    requires shallow == Shallow(node, path, category) && Visiting(shallow, now, {}, path, category)
    requires out == now - EmptyOptionals(now)
    ensures LinkKept(node, out)
  {
    hide Shallow, Visiting, Remains, HasElement, MemberMade, Corresponds;
    if "@uri" in node && node["@uri"].Str? {
      var y := LinkIsMade(node, path, category);
      ShallowIsMade(node, path, category, "@uri", y);
      VisitedMember(shallow, now, path, category, "@uri");
      assert "@uri" !in OPTIONAL_ELEMENTS;
    }
  }

  lemma {:induction false} WithinPositive(m: Members, d: nat)
    requires Within(Obj(m), d)
    ensures d > 0 && forall k :: k in m ==> Within(m[k], d - 1)
  {
  }

  lemma {:induction false} VisitingNone(shallow: Members, path: string, category: string)
    ensures Visiting(shallow, shallow, shallow.Keys, path, category)
  {
  }

  lemma {:induction false} NotYetVisited(shallow: Members, now: Members, rest: set<string>, path: string, category: string,
                                         key: string, d: nat)
    requires Visiting(shallow, now, rest, path, category) && key in rest && Within(Obj(shallow), d)
    ensures key in now && key in shallow && now[key] == shallow[key] && d > 0 && Within(now[key], d - 1)
  {
  }

  // ---------- arrays ----------

  /** The items before `n` are adapted; the others are still as they were. */
  ghost predicate Going(items: seq<Value>, now: seq<Value>, n: nat, path: string, category: string) {
    |now| == |items| && n <= |items|
    && (forall i :: n <= i < |items| ==> now[i] == items[i])
    && (forall i :: 0 <= i < n ==> Adapted(items[i], now[i], Join(path, Decimal(i)), category))
  }

  lemma {:induction false} GoneThrough(items: seq<Value>, now: seq<Value>, path: string, category: string)
    requires Going(items, now, |items|, path, category)
    ensures Adapted(Arr(items), Arr(now), path, category)
  {
    hide Remains;
    forall i | 0 <= i < |items|
      ensures OnSurface(now[i], Join(path, Decimal(i)), category) && Lang(now[i]) == Lang(items[i])
      ensures HasElement(items[i]) <==> HasElement(now[i])
      ensures Corresponds(items[i], now[i], Join(path, Decimal(i)), category)
    {
      assert Adapted(items[i], now[i], Join(path, Decimal(i)), category);
    }
  }

  /** Some item before `n` loses something that no fragment holds. */
  ghost predicate LosesItem(items: seq<Value>, R: Patch, ts: Path, path: string, category: string, n: nat) {
    !Held(R, ts) && exists i :: 0 <= i < n && i < |items| && Exposed(items[i], Join(path, Decimal(i)), category)
  }

  /** Below items not yet visited nothing new is recorded; visited items are as the source says, unless held. */
  ghost predicate HalfwayItems(items: seq<Value>, R0: Patch, now: seq<Value>, R: Patch, n: nat, ts: Path, path: string, category: string) {
    AgreeOutside(R0, R, ts) && (ts in R0 <==> ts in R) && |now| == |items|
    && (forall i :: n <= i < |items| ==> Agree(R0, R, ts + [Decimal(i)]))
    && (forall i :: 0 <= i < n && i < |items| ==>
          Held(R0, ts) || Tracks(items[i], now[i], R, ts + [Decimal(i)], Join(path, Decimal(i)), category))
  }

  lemma {:induction false} FreshItem(items: seq<Value>, L0: Log, now: seq<Value>, L: Log, n: nat, ts: Path, path: string, category: string)
    requires HalfwayItems(items, L0.fragments, now, L.fragments, n, ts, path, category) && n < |items|
    requires Fresh(L0, ts) && NonNested(L.fragments)
    ensures Fresh(L, ts + [Decimal(n)])
    ensures Held(L.fragments, ts + [Decimal(n)]) <==> Held(L0.fragments, ts)
    ensures Held(L.fragments, ts) <==> Held(L0.fragments, ts)
  {
    hide Tracks;
    var R0, R, k := L0.fragments, L.fragments, Decimal(n);
    assert Agree(R0, R, ts + [k]);
    assert ts <= ts + [k] && ts + [k] <= ts + [k];
    CoveredOutside(R0, R, ts);
    CoveredChild(R0, ts, k);
    CoveredChild(R, ts, k);
    if Clear(R0, ts) {
      ClearChild(R0, ts, k);
    }
  }

  lemma {:induction false} HalfwayItemsNext(items: seq<Value>, R0: Patch, now: seq<Value>, R: Patch, n: nat, ts: Path, path: string,
                                            category: string, child: Value, R': Patch)
    requires HalfwayItems(items, R0, now, R, n, ts, path, category) && n < |items|
    requires AgreeOutside(R, R', ts + [Decimal(n)])
    requires Held(R0, ts) || Tracks(items[n], child, R', ts + [Decimal(n)], Join(path, Decimal(n)), category)
    ensures HalfwayItems(items, R0, now[n := child], R', n + 1, ts, path, category)
  {
    hide Tracks;
    var k := Decimal(n);
    OutsideParent(R, R', ts, k);
    OutsideTrans(R0, R, R', ts);
    forall i | 0 <= i < |items| && i != n
      ensures Agree(R, R', ts + [Decimal(i)])
    {
      ParseDecimal(i);
      ParseDecimal(n);
      SiblingAgree(R, R', ts, k, Decimal(i));
    }
    forall i | n + 1 <= i < |items|
      ensures Agree(R0, R', ts + [Decimal(i)])
    {
      assert Agree(R0, R, ts + [Decimal(i)]) && Agree(R, R', ts + [Decimal(i)]);
    }
    forall i | 0 <= i < n + 1
      ensures Held(R0, ts) || Tracks(items[i], now[n := child][i], R', ts + [Decimal(i)], Join(path, Decimal(i)), category)
    {
      if i < n && !Held(R0, ts) {
        AgreeTracks(items[i], now[i], R, R', ts + [Decimal(i)], Join(path, Decimal(i)), category);
      }
    }
  }

  /** What is lost from an array is what its items expose, and it is as the source says when they are. */
  lemma {:induction false} ArrayDone(items: seq<Value>, R0: Patch, now: seq<Value>, R: Patch, ts: Path, path: string, category: string)
    requires HalfwayItems(items, R0, now, R, |items|, ts, path, category)
    ensures LosesItem(items, R0, ts, path, category, |items|) <==> !Held(R0, ts) && Exposed(Arr(items), path, category)
    ensures Held(R0, ts) || Tracks(Arr(items), Arr(now), R, ts, path, category)
    ensures ts in R <==> ts in R0
  {
    hide Remains, Renames;
  }

  /** Adapting any value at its path: what is lost is what the source exposes, the result is on the surface, and the
      recursion ends although one step nests a member deeper. */
  method AdaptValue(value: Value, path: string, ghost ts: Path, category: string, recovery: RecoveryBuilder, ghost d: nat)
    returns (out: Value)
    requires recovery.Valid() && path == Encode(ts) && Fresh(recovery.State(), ts)
    requires Within(value, d)
    modifies recovery
    ensures recovery.Valid() && Within(out, d + Allowance(|ts|))
    ensures Passed(value, old(recovery.State()), out, recovery.State(), ts,
                   !Held(old(recovery.State()).fragments, ts) && Exposed(value, path, category))
    ensures Adapted(value, out, path, category)
    ensures Held(old(recovery.State()).fragments, ts)
            || Tracks(value, out, recovery.State().fragments, ts, path, category)
    ensures !value.Obj? ==> (ts in recovery.State().fragments <==> ts in old(recovery.State()).fragments)
    decreases d + Allowance(|ts|), 1, value
  {
    hide Passed, RecoveryBuilder.Valid, RecoveryBuilder.State, Going, OnSurface, HasElement, Escape, Fresh, Held, Overlay.Covered, HalfwayItems,
      LosesItem, Remains, Adapted, Sure, NonNested, Renames, RemovesZero, Tracks, Corresponds;
    ghost var L0 := recovery.State();
    match value
    case Obj(node) =>
      var adapted := AdaptObject(node, path, ts, category, recovery, d);
      out := Obj(adapted);
    case Arr(items) =>
      hide Exposed;
      ghost var e := d + Allowance(|ts|);
      DeeperBy(value, d, e);
      FreshSure(value, L0, ts);
      PassedRefl(value, L0, ts);
      var now := items;
      GoingNone(items, path, category);
      NothingLostYet(items, L0.fragments, ts, path, category);
      for i := 0 to |items|
        invariant recovery.Valid() && Within(Arr(now), e)
        invariant Passed(value, L0, Arr(now), recovery.State(), ts, LosesItem(items, L0.fragments, ts, path, category, i))
        invariant Going(items, now, i, path, category)
        invariant HalfwayItems(items, L0.fragments, now, recovery.State().fragments, i, ts, path, category)
      {
        ghost var before, L := now, recovery.State();
        ghost var lost := LosesItem(items, L0.fragments, ts, path, category, i);
        NotYetGone(items, now, i, path, category);
        PassedSure(value, L0, Arr(now), L, ts, lost);
        FreshItem(items, L0, now, L, i, ts, path, category);
        EncodeItem(ts, i);
        assert Within(items[i], d);
        ghost var gone := !Held(L.fragments, ts + [Decimal(i)]) && Exposed(now[i], Join(path, Decimal(i)), category);
        var child := AdaptValue(now[i], Join(path, Decimal(i)), ts + [Decimal(i)], category, recovery, d);
        DeeperBy(child, d + Allowance(|ts| + 1), e);
        AdaptedKind(items[i], child, Join(path, Decimal(i)), category);
        PassedFaded(now[i], L, child, recovery.State(), ts + [Decimal(i)], gone);
        PassedItem(now, L, i, child, recovery.State(), ts, gone);
        PassedTrans(value, L0, Arr(before), L, Arr(before[i := child]), recovery.State(), ts, lost, gone);
        LosesItemNext(items, L0.fragments, ts, path, category, i);
        HalfwayItemsNext(items, L0.fragments, before, L.fragments, i, ts, path, category, child, recovery.State().fragments);
        GoneNext(items, before, i, path, category, child);
        now := now[i := child];
      }
      GoneThrough(items, now, path, category);
      ArrayDone(items, L0.fragments, now, recovery.State().fragments, ts, path, category);
      out := Arr(now);
    case _ =>
      FreshSure(value, L0, ts);
      PassedRefl(value, L0, ts);
      DeeperBy(value, d, d + Allowance(|ts|));
      ScalarAdapted(value, path, category);
      if !Held(L0.fragments, ts) {
        FreshTracks(value, L0, ts, path, category);
      }
      out := value;
  }

  lemma FreshSure(v: Value, L: Log, ts: Path)
    requires Fresh(L, ts)
    ensures Sure(v, L.fragments, ts)
  {
    FreshIsReady(v, L.fragments, ts);
  }

  lemma {:induction false} AdaptedKind(v: Value, out: Value, path: string, category: string)
    requires Adapted(v, out, path, category)
    ensures v.Obj? ==> out.Obj?
  {
  }

  lemma {:induction false} NothingLostYet(items: seq<Value>, R: Patch, ts: Path, path: string, category: string)
    ensures !LosesItem(items, R, ts, path, category, 0)
    ensures HalfwayItems(items, R, items, R, 0, ts, path, category)
  {
  }

  lemma {:induction false} LosesItemNext(items: seq<Value>, R: Patch, ts: Path, path: string, category: string, n: nat)
    requires n < |items|
    ensures LosesItem(items, R, ts, path, category, n + 1)
       <==> LosesItem(items, R, ts, path, category, n) || (!Held(R, ts) && Exposed(items[n], Join(path, Decimal(n)), category))
  {
    hide Held, Exposed;
  }

  lemma {:induction false} ScalarAdapted(v: Value, path: string, category: string)
    requires !v.Obj? && !v.Arr?
    ensures Adapted(v, v, path, category)
  {
  }

  lemma {:induction false} GoingNone(items: seq<Value>, path: string, category: string)
    ensures Going(items, items, 0, path, category)
  {
  }

  lemma {:induction false} NotYetGone(items: seq<Value>, now: seq<Value>, i: nat, path: string, category: string)
    requires Going(items, now, i, path, category) && i < |items|
    ensures |now| == |items| && now[i] == items[i]
  {
  }

  lemma {:induction false} GoneNext(items: seq<Value>, now: seq<Value>, i: nat, path: string, category: string, child: Value)
    requires Going(items, now, i, path, category) && i < |items|
    requires Adapted(items[i], child, Join(path, Decimal(i)), category)
    ensures Going(items, now[i := child], i + 1, path, category)
  {
  }

  lemma {:induction false} EncodeItem(ts: Path, i: nat)
    ensures Encode(ts + [Decimal(i)]) == Join(Encode(ts), Decimal(i))
  {
    EscapeDigits(Decimal(i));
    EncodeChild(ts, Decimal(i));
  }
}
