/** Which packages of a Cargo dependency graph are distributed and in which scope, from notices.rs. */
module Scopes {
  import opened Json

  datatype Kind = NormalEdge | BuildEdge | DevEdge | OtherEdge

  /** A dependency as the metadata gives it; absent parts make it malformed. */
  datatype Dependency = Dependency(package: Option<string>, kinds: Option<seq<Kind>>)

  datatype Scope = RustNormal | RustBuild

  datatype ScopeError = NoUniqueRoot | MissingNode(id: string) | UnknownKind(id: string) | Malformed(id: string)

  /** The resolved graph: for each package its dependencies, if that list is there. */
  type Graph = map<string, Option<seq<Dependency>>>

  type Selection = map<string, set<Scope>>

  predicate Marked(selected: Selection, id: string, scope: Scope) {
    id in selected && scope in selected[id]
  }

  // ---------- what distribution means ----------

  /** `b` is a dependency of `a` by an edge of that kind. */
  ghost predicate Depends(g: Graph, a: string, b: string, kind: Kind) {
    a in g && g[a].Some? && exists d :: d in g[a].value && d.package == Some(b) && d.kinds.Some? && kind in d.kinds.value
  }

  datatype Hop = Hop(package: string, build: bool)

  function EndOf(root: string, walk: seq<Hop>): string {
    if walk == [] then root else walk[|walk| - 1].package
  }

  /** A walk from the root over normal and build edges. */
  ghost predicate Walk(g: Graph, root: string, walk: seq<Hop>) {
    walk == [] ||
    (Walk(g, root, walk[..|walk| - 1]) &&
     var last := walk[|walk| - 1];
     Depends(g, EndOf(root, walk[..|walk| - 1]), last.package, if last.build then BuildEdge else NormalEdge))
  }

  predicate HasBuild(walk: seq<Hop>) {
    walk != [] && (HasBuild(walk[..|walk| - 1]) || walk[|walk| - 1].build)
  }

  /** Some walk without build edges, or with at least one, leads to the package. */
  ghost predicate InScope(g: Graph, root: string, id: string, scope: Scope) {
    exists walk :: Walk(g, root, walk) && EndOf(root, walk) == id && (HasBuild(walk) <==> scope == RustBuild)
  }

  /** Following an edge that is not a development one. */
  ghost predicate Step(g: Graph, a: string, s: Scope, b: string, t: Scope) {
    (Depends(g, a, b, NormalEdge) && t == s) || (Depends(g, a, b, BuildEdge) && t == RustBuild)
  }

  lemma StepInScope(g: Graph, root: string, a: string, s: Scope, b: string, t: Scope)
    requires InScope(g, root, a, s) && Step(g, a, s, b, t)
    ensures InScope(g, root, b, t)
  {
    var walk :| Walk(g, root, walk) && EndOf(root, walk) == a && (HasBuild(walk) <==> s == RustBuild);
    var build := !(Depends(g, a, b, NormalEdge) && t == s);
    var longer := walk + [Hop(b, build)];
    assert longer[..|longer| - 1] == walk && longer[|longer| - 1] == Hop(b, build);
    assert EndOf(root, longer) == b;
    assert HasBuild(longer) <==> HasBuild(walk) || build;
    assert Walk(g, root, longer) by {
      hide HasBuild;
    }
  }

  lemma RootInScope(g: Graph, root: string)
    ensures InScope(g, root, root, RustNormal)
  {
    assert Walk(g, root, []) && EndOf(root, []) == root && !HasBuild([]);
  }

  /** Marks that hold the root and that no step leaves hold every package in scope. */
  lemma {:induction false} ClosedHoldsAll(g: Graph, root: string, selected: Selection, walk: seq<Hop>)
    requires Walk(g, root, walk) && Marked(selected, root, RustNormal)
    requires forall a, s, b, t :: Marked(selected, a, s) && Step(g, a, s, b, t) ==> Marked(selected, b, t)
    ensures Marked(selected, EndOf(root, walk), if HasBuild(walk) then RustBuild else RustNormal)
  {
    if walk != [] {
      var before, last := walk[..|walk| - 1], walk[|walk| - 1];
      ClosedHoldsAll(g, root, selected, before);
      var s := if HasBuild(before) then RustBuild else RustNormal;
      var t := if HasBuild(walk) then RustBuild else RustNormal;
      assert Step(g, EndOf(root, before), s, last.package, t);
    }
  }

  // ---------- the worklist ----------

  ghost predicate DependencyFine(d: Dependency) {
    d.kinds.Some? && OtherEdge !in d.kinds.value && ((NormalEdge in d.kinds.value || BuildEdge in d.kinds.value) ==> d.package.Some?)
  }

  ghost predicate NodeFine(g: Graph, id: string) {
    id in g && g[id].Some? && forall d :: d in g[id].value ==> DependencyFine(d)
  }

  /** What one dependency puts on the queue. */
  ghost predicate Pushes(d: Dependency, s: Scope, b: string, t: Scope) {
    d.package == Some(b) && d.kinds.Some? &&
    ((NormalEdge in d.kinds.value && t == s) || (BuildEdge in d.kinds.value && t == RustBuild))
  }

  /** What the error says of a dependency of `id` is so. */
  ghost predicate DependencyFault(d: Dependency, e: ScopeError, id: string) {
    match e
    case UnknownKind(of) => of == id && d.kinds.Some? && OtherEdge in d.kinds.value
    case Malformed(of) =>
      of == id && (d.kinds.None? || (d.package.None? && (NormalEdge in d.kinds.value || BuildEdge in d.kinds.value)))
    case _ => false
  }

  ghost predicate NodeFault(g: Graph, e: ScopeError) {
    match e
    case NoUniqueRoot => false
    case MissingNode(id) => id !in g
    case UnknownKind(id) => id in g && g[id].Some? && exists d :: d in g[id].value && DependencyFault(d, e, id)
    case Malformed(id) => id in g && (g[id].None? || exists d :: d in g[id].value && DependencyFault(d, e, id))
  }

  method PushKinds(id: string, d: Dependency, s: Scope, queue: seq<(string, Scope)>)
    returns (r: Result<seq<(string, Scope)>, ScopeError>)
    ensures r.Ok? <==> DependencyFine(d)
    ensures r.Ok? ==> queue <= r.value && forall x :: x in r.value <==> x in queue || Pushes(d, s, x.0, x.1)
    ensures r.Err? ==> DependencyFault(d, r.error, id)
  {
    if d.kinds.None? {
      return Err(Malformed(id));
    }
    var kinds := d.kinds.value;
    var all := queue;
    for i := 0 to |kinds|
      invariant queue <= all && OtherEdge !in kinds[..i]
      invariant (NormalEdge in kinds[..i] || BuildEdge in kinds[..i]) ==> d.package.Some?
      invariant forall x :: x in all <==> x in queue || Pushes(d.(kinds := Some(kinds[..i])), s, x.0, x.1)
    {
      assert kinds[..i + 1] == kinds[..i] + [kinds[i]];
      match kinds[i] {
        case DevEdge =>
        case OtherEdge => return Err(UnknownKind(id));
        case _ =>
          if d.package.None? {
            return Err(Malformed(id));
          }
          all := all + [(d.package.value, if kinds[i].BuildEdge? then RustBuild else s)];
      }
    }
    assert kinds[..|kinds|] == kinds;
    assert d.(kinds := Some(kinds)) == d;
    r := Ok(all);
  }

  /** Puts everything a package depends on, other than for development, on the queue. */
  method Expand(g: Graph, id: string, s: Scope, queue: seq<(string, Scope)>) returns (r: Result<seq<(string, Scope)>, ScopeError>)
    ensures r.Ok? <==> NodeFine(g, id)
    ensures r.Ok? ==> forall x :: x in r.value <==> x in queue || Step(g, id, s, x.0, x.1)
    ensures r.Err? ==> NodeFault(g, r.error) && !r.error.NoUniqueRoot? && r.error.id == id
  {
    if id !in g {
      return Err(MissingNode(id));
    }
    if g[id].None? {
      return Err(Malformed(id));
    }
    var deps := g[id].value;
    var all := queue;
    for i := 0 to |deps|
      invariant forall j :: 0 <= j < i ==> DependencyFine(deps[j])
      invariant forall x :: x in all <==> x in queue || exists j :: 0 <= j < i && Pushes(deps[j], s, x.0, x.1)
    {
      hide Pushes, DependencyFine, DependencyFault;
      var more := PushKinds(id, deps[i], s, all);
      if more.Err? {
        return Err(more.error);
      }
      all := more.value;
    }
    forall x: (string, Scope)
      ensures (exists j :: 0 <= j < |deps| && Pushes(deps[j], s, x.0, x.1)) <==> Step(g, id, s, x.0, x.1)
    {
      StepsArePushes(g, id, s, x.0, x.1);
    }
    r := Ok(all);
  }

  lemma StepsArePushes(g: Graph, id: string, s: Scope, b: string, t: Scope)
    requires id in g && g[id].Some?
    ensures (exists j :: 0 <= j < |g[id].value| && Pushes(g[id].value[j], s, b, t)) <==> Step(g, id, s, b, t)
  {
    var deps := g[id].value;
    if j :| 0 <= j < |deps| && Pushes(deps[j], s, b, t) {
      assert deps[j] in deps;
    }
    if Depends(g, id, b, NormalEdge) && t == s {
      var d :| d in deps && d.package == Some(b) && d.kinds.Some? && NormalEdge in d.kinds.value;
      assert Pushes(d, s, b, t);
    }
    if Depends(g, id, b, BuildEdge) && t == RustBuild {
      var d :| d in deps && d.package == Some(b) && d.kinds.Some? && BuildEdge in d.kinds.value;
      assert Pushes(d, s, b, t);
    }
  }

  function Mark(selected: Selection, id: string, scope: Scope): Selection {
    selected[id := (if id in selected then selected[id] else {}) + {scope}]
  }

  lemma MarkMarks(selected: Selection, id: string, scope: Scope)
    ensures forall a, s :: Marked(Mark(selected, id, scope), a, s) <==> Marked(selected, a, s) || (a == id && s == scope)
  {
  }

  ghost function Marks(selected: Selection): set<(string, Scope)> {
    set id, s | id in selected && s in selected[id] :: (id, s)
  }

  ghost predicate Spreading(g: Graph, root: string, selected: Selection, queue: seq<(string, Scope)>) {
    && (forall id, s :: Marked(selected, id, s) ==> InScope(g, root, id, s) && NodeFine(g, id))
    && (forall x :: x in queue ==> InScope(g, root, x.0, x.1))
    && (Marked(selected, root, RustNormal) || (root, RustNormal) in queue)
    && (forall a, s, b, t :: Marked(selected, a, s) && Step(g, a, s, b, t) ==> Marked(selected, b, t) || (b, t) in queue)
  }

  lemma {:induction false} SpreadStep(g: Graph, root: string, selected: Selection, rest: seq<(string, Scope)>, id: string, scope: Scope,
                                      queue: seq<(string, Scope)>)
    requires Spreading(g, root, selected, rest + [(id, scope)]) && NodeFine(g, id)
    requires forall x :: x in queue <==> x in rest || Step(g, id, scope, x.0, x.1)
    ensures Spreading(g, root, Mark(selected, id, scope), queue)
  {
    hide InScope, NodeFine, Step, Mark, Marked;
    MarkMarks(selected, id, scope);
    assert forall x :: x in rest + [(id, scope)] <==> x in rest || x == (id, scope);
    assert (id, scope) in rest + [(id, scope)];
    forall x | x in queue
      ensures InScope(g, root, x.0, x.1)
    {
      if x !in rest {
        StepInScope(g, root, id, scope, x.0, x.1);
      }
    }
  }

  lemma SpreadSkip(g: Graph, root: string, selected: Selection, rest: seq<(string, Scope)>, id: string, scope: Scope)
    requires Spreading(g, root, selected, rest + [(id, scope)]) && Marked(selected, id, scope)
    ensures Spreading(g, root, selected, rest)
  {
    hide InScope, NodeFine, Step;
    assert forall x :: x in rest + [(id, scope)] <==> x in rest || x == (id, scope);
  }

  lemma SpreadDone(g: Graph, root: string, selected: Selection, id: string, scope: Scope)
    requires Spreading(g, root, selected, [])
    ensures Marked(selected, id, scope) <==> InScope(g, root, id, scope)
  {
    if InScope(g, root, id, scope) {
      var walk :| Walk(g, root, walk) && EndOf(root, walk) == id && (HasBuild(walk) <==> scope == RustBuild);
      hide Step, NodeFine;
      ClosedHoldsAll(g, root, selected, walk);
    }
  }

  /**
   * Scopes of everything distributed with the unique product root: a package is normal exactly when a path
   * of normal edges leads to it and build exactly when some path with a build edge and no development edge
   * does. Fails only for a package in scope that is missing or malformed.
   */
  method CargoScopes(g: Graph, roots: seq<string>) returns (r: Result<Selection, ScopeError>)
    ensures |roots| != 1 <==> r == Err(NoUniqueRoot)
    ensures r.Ok? ==> forall id, s :: Marked(r.value, id, s) <==> InScope(g, roots[0], id, s)
    ensures r.Ok? <==> |roots| == 1 && forall id, s :: InScope(g, roots[0], id, s) ==> NodeFine(g, id)
    ensures r.Err? && !r.error.NoUniqueRoot? ==> NodeFault(g, r.error) && exists s :: InScope(g, roots[0], r.error.id, s)
  {
    if |roots| != 1 {
      return Err(NoUniqueRoot);
    }
    hide InScope, NodeFine, Step, Mark, Marked, NodeFault;
    var root := roots[0];
    var selected: Selection := map[];
    var queue := [(root, RustNormal)];
    StartsSpreading(g, root);
    while queue != []
      invariant Spreading(g, root, selected, queue)
      decreases (set id, s | id in g && s in {RustNormal, RustBuild} :: (id, s)) - Marks(selected), |queue|
    {
      var (id, scope) := queue[|queue| - 1];
      var rest := queue[..|queue| - 1];
      assert queue == rest + [(id, scope)];
      if Marked(selected, id, scope) {
        SpreadSkip(g, root, selected, rest, id, scope);
        queue := rest;
      } else {
        assert (id, scope) in queue;
        var more := Expand(g, id, scope, rest);
        if more.Err? {
          return Err(more.error);
        }
        SpreadStep(g, root, selected, rest, id, scope, more.value);
        MarkGrows(g, selected, id, scope);
        selected := Mark(selected, id, scope);
        queue := more.value;
      }
    }
    forall id, s
      ensures Marked(selected, id, s) <==> InScope(g, root, id, s)
    {
      SpreadDone(g, root, selected, id, s);
    }
    r := Ok(selected);
  }

  lemma StartsSpreading(g: Graph, root: string)
    ensures Spreading(g, root, map[], [(root, RustNormal)])
  {
    RootInScope(g, root);
    hide InScope;
  }

  lemma MarkGrows(g: Graph, selected: Selection, id: string, scope: Scope)
    requires !Marked(selected, id, scope) && NodeFine(g, id)
    ensures Marks(Mark(selected, id, scope)) == Marks(selected) + {(id, scope)} && (id, scope) !in Marks(selected)
    ensures id in g
  {
  }
}
