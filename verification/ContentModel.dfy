/** What the flattened content model of an element lists, told by the places of the schema it comes from. */
module ContentModel {
  import opened Json
  import opened Ordering
  import OrderingDepth

  // ---------- places ----------

  /** Where a particle goes on: a compositor at its own children, a reference to a group at those of the group. */
  function Inside(c: Catalog, p: Declared): Option<Declared> {
    if p.node.name in {"sequence", "choice", "all"} then Some(p)
    else if p.node.name == "group" && "ref" in p.node.attributes then
      match ResolveQName(p.node.attributes["ref"], p.namespaces, "")
      case Err(_) => None
      case Ok(q) => if q in c.groups then Some(c.groups[q]) else None
    else None
  }

  /** The schema node that a path of child numbers leads to. */
  function At(c: Catalog, d: Declared, path: seq<nat>): Option<Declared>
    decreases |path|
  {
    if path == [] || path[0] >= |d.node.children| then None
    else
      var p := Declared(d.node.children[path[0]], d.namespaces);
      if |path| == 1 then Some(p)
      else
        match Inside(c, p)
        case None => None
        case Some(inner) => At(c, inner, path[1..])
  }

  /** Document order. */
  predicate Precedes(a: seq<nat>, b: seq<nat>)
    decreases |a|
  {
    a != [] && b != [] && (a[0] < b[0] || (a[0] == b[0] && Precedes(a[1..], b[1..])))
  }

  predicate NamedAt(c: Catalog, d: Declared, path: seq<nat>, name: string) {
    var p := At(c, d, path);
    p.Some? && p.value.node.name == name
  }

  predicate ChildAt(c: Catalog, d: Declared, path: seq<nat>, child: ChildSpec) {
    var p := At(c, d, path);
    p.Some? && p.value.node.name == "element" && ResolveElement(c, p.value.node, p.value.namespaces) == Ok(child)
  }

  /** An element that does not resolve, or a reference to a group that is not known. */
  predicate BrokenAt(c: Catalog, d: Declared, path: seq<nat>) {
    var p := At(c, d, path);
    p.Some? &&
    ((p.value.node.name == "element" && ResolveElement(c, p.value.node, p.value.namespaces).Err?) ||
     (p.value.node.name == "group" && "ref" in p.value.node.attributes && Inside(c, p.value).None?))
  }

  /** `paths` are the places below the children from number `lo` to `hi` where an element stands, in document order. */
  ghost predicate ElementPlaces(c: Catalog, d: Declared, lo: nat, hi: nat, paths: seq<seq<nat>>) {
    && (forall i :: 0 <= i < |paths| ==> IsPlace(c, d, lo, hi, paths[i]))
    && Ascending(paths)
    && (forall path :: IsPlace(c, d, lo, hi, path) ==> path in paths)
  }

  predicate IsPlace(c: Catalog, d: Declared, lo: nat, hi: nat, path: seq<nat>) {
    path != [] && lo <= path[0] < hi && NamedAt(c, d, path, "element")
  }

  ghost predicate Ascending(p: seq<seq<nat>>) {
    forall i, j :: 0 <= i < j < |p| ==> Precedes(p[i], p[j])
  }

  ghost predicate ChildrenAt(c: Catalog, d: Declared, paths: seq<seq<nat>>, children: seq<ChildSpec>) {
    |paths| == |children| && forall i :: 0 <= i < |paths| ==> ChildAt(c, d, paths[i], children[i])
  }

  ghost predicate Unbroken(c: Catalog, d: Declared, lo: nat, hi: nat) {
    forall path :: path != [] && lo <= path[0] < hi ==> !BrokenAt(c, d, path)
  }

  /** `children` are the elements that stand in `d`, groups in the place of their references, in document order. */
  ghost predicate Lists(c: Catalog, d: Declared, children: seq<ChildSpec>) {
    exists paths :: ElementPlaces(c, d, 0, |d.node.children|, paths) && ChildrenAt(c, d, paths, children)
  }

  /** Places below the child number `k`. */
  function Below(k: nat, paths: seq<seq<nat>>): seq<seq<nat>> {
    seq(|paths|, i requires 0 <= i < |paths| => [k] + paths[i])
  }

  lemma AtBelow(c: Catalog, d: Declared, k: nat, path: seq<nat>)
    requires k < |d.node.children| && path != []
    ensures var inner := Inside(c, Declared(d.node.children[k], d.namespaces));
            At(c, d, [k] + path) == if inner.None? then None else At(c, inner.value, path)
  {
    assert ([k] + path)[1..] == path;
  }

  lemma Split(path: seq<nat>, k: nat)
    requires path != [] && path[0] == k
    ensures path == [k] || (|path| > 1 && path == [k] + path[1..])
  {
  }

  lemma BelowAscends(k: nat, paths: seq<seq<nat>>)
    requires Ascending(paths)
    ensures Ascending(Below(k, paths))
  {
    var below := Below(k, paths);
    forall i, j | 0 <= i < j < |paths|
      ensures Precedes(below[i], below[j])
    {
      assert below[i][1..] == paths[i] && below[j][1..] == paths[j];
    }
  }

  /** What stands below one child that is not an element. */
  lemma {:induction false} PlacesInside(c: Catalog, d: Declared, k: nat, inner: Declared, paths: seq<seq<nat>>)
    requires k < |d.node.children| && d.node.children[k].name != "element"
    requires Inside(c, Declared(d.node.children[k], d.namespaces)) == Some(inner)
    requires ElementPlaces(c, inner, 0, |inner.node.children|, paths)
    ensures ElementPlaces(c, d, k, k + 1, Below(k, paths))
  {
    var below := Below(k, paths);
    BelowAscends(k, paths);
    hide Ascending, Inside;
    forall i | 0 <= i < |paths|
      ensures IsPlace(c, d, k, k + 1, below[i])
    {
      AtBelow(c, d, k, paths[i]);
    }
    forall path | IsPlace(c, d, k, k + 1, path)
      ensures path in below
    {
      Split(path, k);
      if |path| > 1 {
        AtBelow(c, d, k, path[1..]);
        assert IsPlace(c, inner, 0, |inner.node.children|, path[1..]);
        var i :| 0 <= i < |paths| && paths[i] == path[1..];
        assert below[i] == path;
      }
    }
  }

  lemma {:induction false} ChildrenInside(c: Catalog, d: Declared, k: nat, inner: Declared, paths: seq<seq<nat>>,
                                          children: seq<ChildSpec>)
    requires k < |d.node.children| && Inside(c, Declared(d.node.children[k], d.namespaces)) == Some(inner)
    requires ChildrenAt(c, inner, paths, children)
    ensures ChildrenAt(c, d, Below(k, paths), children)
  {
    hide Inside;
    forall i | 0 <= i < |paths|
      ensures ChildAt(c, d, Below(k, paths)[i], children[i])
    {
      assert ChildAt(c, inner, paths[i], children[i]);
      AtBelow(c, d, k, paths[i]);
    }
  }

  lemma {:induction false} BrokenInside(c: Catalog, d: Declared, k: nat, inner: Declared)
    requires k < |d.node.children| && d.node.children[k].name != "element"
    requires Inside(c, Declared(d.node.children[k], d.namespaces)) == Some(inner)
    ensures Unbroken(c, d, k, k + 1) <==> Unbroken(c, inner, 0, |inner.node.children|)
  {
    assert !BrokenAt(c, d, [k]);
    hide Inside;
    forall path: seq<nat> | path != []
      ensures BrokenAt(c, d, [k] + path) == BrokenAt(c, inner, path)
    {
      AtBelow(c, d, k, path);
    }
    hide BrokenAt;
    if Unbroken(c, inner, 0, |inner.node.children|) {
      forall path | path != [] && path[0] == k
        ensures !BrokenAt(c, d, path)
      {
        Split(path, k);
        if |path| > 1 {
          NotBeyond(c, inner, path[1..]);
          assert BrokenAt(c, d, path) == BrokenAt(c, inner, path[1..]);
        }
      }
    }
    if Unbroken(c, d, k, k + 1) {
      forall path: seq<nat> | path != [] && 0 <= path[0] < |inner.node.children|
        ensures !BrokenAt(c, inner, path)
      {
        assert !BrokenAt(c, d, [k] + path);
      }
    }
  }

  lemma NotBeyond(c: Catalog, d: Declared, path: seq<nat>)
    ensures BrokenAt(c, d, path) ==> path != [] && path[0] < |d.node.children|
  {
  }

  /** A child that does not go on is an element, broken, or nothing. */
  lemma {:induction false} LeafListed(c: Catalog, d: Declared, k: nat)
    requires k < |d.node.children| && Inside(c, Declared(d.node.children[k], d.namespaces)).None?
    ensures var own := OneParticle(c, 0, d.node.children[k], d.namespaces);
            var paths := if d.node.children[k].name == "element" then [[k]] else [];
            && (own.Ok? <==> Unbroken(c, d, k, k + 1))
            && (own.Ok? ==> ElementPlaces(c, d, k, k + 1, paths) && ChildrenAt(c, d, paths, own.value))
  {
    var p := Declared(d.node.children[k], d.namespaces);
    var own := OneParticle(c, 0, p.node, p.namespaces);
    assert At(c, d, [k]) == Some(p);
    assert BrokenAt(c, d, [k]) <==> own.Err?;
    hide Inside, ResolveElement, ResolveQName, OneParticle;
    forall path: seq<nat> | path != [] && path[0] == k && path != [k]
      ensures At(c, d, path) == None
    {
      Split(path, k);
      AtBelow(c, d, k, path[1..]);
    }
    hide At;
  }

  /** The places of some children and those of the next one. */
  lemma {:induction false} PlacesNext(c: Catalog, d: Declared, n: nat, before: seq<seq<nat>>, own: seq<seq<nat>>)
    requires 0 < n && ElementPlaces(c, d, 0, n - 1, before) && ElementPlaces(c, d, n - 1, n, own)
    ensures ElementPlaces(c, d, 0, n, before + own)
  {
    hide NamedAt;
    var all := before + own;
    assert forall i :: 0 <= i < |before| ==> IsPlace(c, d, 0, n - 1, before[i]) && IsPlace(c, d, 0, n, all[i]);
    assert forall i :: |before| <= i < |all| ==> IsPlace(c, d, n - 1, n, own[i - |before|]) && IsPlace(c, d, 0, n, all[i]);
    assert Ascending(all);
    forall path | IsPlace(c, d, 0, n, path)
      ensures path in all
    {
      assert IsPlace(c, d, 0, n - 1, path) || IsPlace(c, d, n - 1, n, path);
    }
  }

  lemma {:induction false} UnbrokenNext(c: Catalog, d: Declared, n: nat)
    requires 0 < n
    ensures Unbroken(c, d, 0, n) <==> Unbroken(c, d, 0, n - 1) && Unbroken(c, d, n - 1, n)
  {
    hide BrokenAt;
  }

  lemma NothingListed(c: Catalog, d: Declared)
    ensures Unbroken(c, d, 0, 0) && ElementPlaces(c, d, 0, 0, []) && ChildrenAt(c, d, [], [])
  {
  }

  lemma ChildrenNext(c: Catalog, d: Declared, before: seq<seq<nat>>, a: seq<ChildSpec>, own: seq<seq<nat>>, b: seq<ChildSpec>)
    requires ChildrenAt(c, d, before, a) && ChildrenAt(c, d, own, b)
    ensures ChildrenAt(c, d, before + own, a + b)
  {
    hide ChildAt;
  }

  lemma {:induction false} OneListed(c: Catalog, fuel: nat, d: Declared, k: nat) returns (paths: seq<seq<nat>>)
    requires k < |d.node.children|
    requires OneParticle(c, fuel, d.node.children[k], d.namespaces) != Err(TooDeep)
    ensures var own := OneParticle(c, fuel, d.node.children[k], d.namespaces);
            && (own.Ok? <==> Unbroken(c, d, k, k + 1))
            && (own.Ok? ==> ElementPlaces(c, d, k, k + 1, paths) && ChildrenAt(c, d, paths, own.value))
    decreases fuel, d.node.children[k], 1
  {
    hide Unbroken, ElementPlaces, ChildrenAt, ResolveQName, ResolveElement;
    var p := d.node.children[k];
    var inner := Inside(c, Declared(p, d.namespaces));
    if inner.None? {
      LeafListed(c, d, k);
      paths := if p.name == "element" then [[k]] else [];
    } else {
      var n := |inner.value.node.children|;
      var depth := if p.name == "group" then fuel - 1 else fuel;
      var within := ParticlesListed(c, depth, inner.value, n);
      hide ParticleChildren;
      BrokenInside(c, d, k, inner.value);
      paths := Below(k, within);
      if OneParticle(c, fuel, p, d.namespaces).Ok? {
        PlacesInside(c, d, k, inner.value, within);
        ChildrenInside(c, d, k, inner.value, within, OneParticle(c, fuel, p, d.namespaces).value);
      }
    }
  }

  lemma {:induction false} ParticlesListed(c: Catalog, fuel: nat, d: Declared, n: nat) returns (paths: seq<seq<nat>>)
    requires n <= |d.node.children| && ParticleChildren(c, fuel, d.node, d.namespaces, n) != Err(TooDeep)
    ensures var children := ParticleChildren(c, fuel, d.node, d.namespaces, n);
            && (children.Ok? <==> Unbroken(c, d, 0, n))
            && (children.Ok? ==> ElementPlaces(c, d, 0, n, paths) && ChildrenAt(c, d, paths, children.value))
    decreases fuel, d.node, 0, n
  {
    hide OneParticle, ElementPlaces, Unbroken, ChildrenAt;
    paths := [];
    if n == 0 {
      NothingListed(c, d);
    } else {
      UnbrokenNext(c, d, n);
      var before := ParticlesListed(c, fuel, d, n - 1);
      if ParticleChildren(c, fuel, d.node, d.namespaces, n - 1).Ok? {
        var own := OneListed(c, fuel, d, n - 1);
        paths := before + own;
        if OneParticle(c, fuel, d.node.children[n - 1], d.namespaces).Ok? {
          PlacesNext(c, d, n, before, own);
          ChildrenNext(c, d, before, ParticleChildren(c, fuel, d.node, d.namespaces, n - 1).value,
                       own, OneParticle(c, fuel, d.node.children[n - 1], d.namespaces).value);
        }
      }
    }
  }

  /** The particles of a node list the elements below it, and nothing else, in document order; they fail exactly when
      a reference below it does not resolve. */
  lemma {:induction false} ParticlesAreListed(c: Catalog, fuel: nat, d: Declared)
    requires ParticleChildren(c, fuel, d.node, d.namespaces, |d.node.children|) != Err(TooDeep)
    ensures var children := ParticleChildren(c, fuel, d.node, d.namespaces, |d.node.children|);
            && (children.Ok? <==> forall path :: !BrokenAt(c, d, path))
            && (children.Ok? ==> Lists(c, d, children.value))
  {
    var paths := ParticlesListed(c, fuel, d, |d.node.children|);
    hide ElementPlaces, ChildrenAt, ParticleChildren;
    forall path
      ensures BrokenAt(c, d, path) ==> path != [] && path[0] < |d.node.children|
    {
      NotBeyond(c, d, path);
    }
    hide BrokenAt;
  }

  // ---------- a list of places is the only one ----------

  lemma {:induction false} PrecedesOnce(a: seq<nat>, b: seq<nat>)
    ensures !(Precedes(a, b) && Precedes(b, a))
    decreases |a|
  {
    if a != [] && b != [] && a[0] == b[0] {
      PrecedesOnce(a[1..], b[1..]);
    }
  }

  lemma {:induction false} FirstIsLeast(p: seq<seq<nat>>, q: seq<seq<nat>>)
    requires Ascending(p) && Ascending(q) && p != [] && q != []
    requires forall x :: x in p <==> x in q
    ensures p[0] == q[0]
  {
    assert p[0] in q && q[0] in p;
    PrecedesOnce(p[0], q[0]);
  }

  lemma {:induction false} SameAscending(p: seq<seq<nat>>, q: seq<seq<nat>>)
    requires Ascending(p) && Ascending(q)
    requires forall x :: x in p <==> x in q
    ensures p == q
  {
    if p != [] {
      assert p[0] in q;
    }
    if q != [] {
      assert q[0] in p;
      FirstIsLeast(p, q);
      PrecedesOnce(p[0], p[0]);
      assert p == [p[0]] + p[1..] && q == [q[0]] + q[1..];
      assert p[0] !in p[1..] && q[0] !in q[1..];
      forall x
        ensures x in p[1..] <==> x in q[1..]
      {
        assert x in p <==> x in q;
      }
      SameAscending(p[1..], q[1..]);
    }
  }

  lemma {:induction false} ListIsUnique(c: Catalog, d: Declared, a: seq<ChildSpec>, b: seq<ChildSpec>)
    requires Lists(c, d, a) && Lists(c, d, b)
    ensures a == b
  {
    var n := |d.node.children|;
    var p :| ElementPlaces(c, d, 0, n, p) && ChildrenAt(c, d, p, a);
    var q :| ElementPlaces(c, d, 0, n, q) && ChildrenAt(c, d, q, b);
    PlacesHold(c, d, 0, n, p);
    PlacesHold(c, d, 0, n, q);
    hide IsPlace, ElementPlaces, ChildAt;
    SameAscending(p, q);
    assert forall i :: 0 <= i < |p| ==> ChildAt(c, d, p[i], a[i]) && ChildAt(c, d, p[i], b[i]);
    SameChildren(c, d, p, a, b);
  }

  lemma PlacesHold(c: Catalog, d: Declared, lo: nat, hi: nat, paths: seq<seq<nat>>)
    requires ElementPlaces(c, d, lo, hi, paths)
    ensures Ascending(paths) && forall x :: x in paths <==> IsPlace(c, d, lo, hi, x)
  {
    hide IsPlace, Ascending;
  }

  lemma SameChildren(c: Catalog, d: Declared, p: seq<seq<nat>>, a: seq<ChildSpec>, b: seq<ChildSpec>)
    requires |a| == |b| == |p| && forall i :: 0 <= i < |p| ==> ChildAt(c, d, p[i], a[i]) && ChildAt(c, d, p[i], b[i])
    ensures a == b
  {
    hide At, ResolveElement;
  }

  // ---------- names ----------

  /** A name is what stands after its first colon, and the prefix what stands before. */
  predicate Parts(value: string, prefix: string, local: string) {
    (value == prefix + ":" + local && ':' !in prefix) || (':' !in value && prefix == "" && local == value)
  }

  /** The qualified name of a reference: in the namespace of its prefix, or else in that of the element it stands at. */
  ghost predicate Means(value: string, namespaces: Namespaces, fallback: string, q: QName) {
    exists prefix, local :: Parts(value, prefix, local) && q.local == local &&
      if prefix in namespaces then q.ns == namespaces[prefix] else fallback != "" && q.ns == fallback
  }

  lemma {:induction false} FirstColon(value: string)
    ensures match SplitOnce(value)
            case None => ':' !in value
            case Some((prefix, local)) => ':' !in prefix && value == prefix + ":" + local
  {
    if value != "" && value[0] != ':' {
      FirstColon(value[1..]);
      assert value == [value[0]] + value[1..];
    }
  }

  lemma {:induction false} OneSplit(value: string, p: string, a: string, q: string, b: string)
    requires ':' !in p && ':' !in q && value == p + ":" + a == q + ":" + b
    ensures p == q && a == b
  {
    assert value[|p|] == ':' && value[|q|] == ':';
    assert forall i :: 0 <= i < |p| ==> value[i] == p[i] && p[i] in p;
    assert forall i :: 0 <= i < |q| ==> value[i] == q[i] && q[i] in q;
    assert p == value[..|p|] && q == value[..|q|] && a == value[|p| + 1..] && b == value[|q| + 1..];
  }

  lemma {:induction false} SplitParts(value: string, prefix: string, local: string)
    ensures Parts(value, prefix, local) <==>
            match SplitOnce(value) case None => prefix == "" && local == value case Some(pair) => pair == (prefix, local)
  {
    FirstColon(value);
    hide SplitOnce;
    if value == prefix + ":" + local && ':' !in prefix {
      assert value[|prefix|] == ':';
      var pair := SplitOnce(value).value;
      OneSplit(value, prefix, local, pair.0, pair.1);
    }
  }

  lemma {:induction false} NamesResolve(value: string, namespaces: Namespaces, fallback: string, q: QName)
    ensures ResolveQName(value, namespaces, fallback) == Ok(q) <==> Means(value, namespaces, fallback, q)
  {
    forall prefix, local
      ensures Parts(value, prefix, local) <==>
              match SplitOnce(value) case None => prefix == "" && local == value case Some(pair) => pair == (prefix, local)
    {
      SplitParts(value, prefix, local);
    }
    hide SplitOnce, Parts;
  }

  /** What an element in a content model stands for: the element it refers to, or itself under its own name. */
  ghost predicate StandsFor(c: Catalog, e: XsdNode, namespaces: Namespaces, child: ChildSpec) {
    && child.key == (if child.name.ns == COMMON_NS then "common:" else "") + child.name.local
    && if "ref" in e.attributes then
         && Means(e.attributes["ref"], namespaces, "", child.name) && child.name in c.elements
         && Declared(child.schema, child.namespaces) == c.elements[child.name]
       else
         && "name" in e.attributes && child.name.local == e.attributes["name"]
         && child.name.ns == (if "" in namespaces then namespaces[""] else "")
         && child.schema == e && child.namespaces == namespaces
  }

  lemma {:induction false} ElementIs(c: Catalog, e: XsdNode, namespaces: Namespaces, child: ChildSpec)
    ensures ResolveElement(c, e, namespaces) == Ok(child) <==> StandsFor(c, e, namespaces, child)
  {
    if "ref" in e.attributes {
      NamesResolve(e.attributes["ref"], namespaces, "", child.name);
    }
    hide ResolveQName, Means;
    assert "" + child.name.local == child.name.local;
  }

  lemma {:induction false} FirstNamedIs(nodes: seq<XsdNode>, name: string)
    ensures match FirstNamed(nodes, name)
            case None => forall i :: 0 <= i < |nodes| ==> nodes[i].name != name
            case Some(n) => exists i :: 0 <= i < |nodes| && nodes[i] == n && n.name == name
                                        && forall j :: 0 <= j < i ==> nodes[j].name != name
  {
    if nodes != [] && nodes[0].name != name {
      FirstNamedIs(nodes[1..], name);
      if i :| 0 <= i < |nodes| - 1 && FirstNamed(nodes, name) == Some(nodes[1..][i])
              && nodes[1..][i].name == name && forall j :: 0 <= j < i ==> nodes[1..][j].name != name {
        assert nodes[i + 1].name == name;
        assert forall j :: 0 < j < i + 1 ==> nodes[j] == nodes[1..][j - 1];
      }
    }
  }

  // ---------- types and elements ----------

  function Extension(t: Declared): Option<Declared> {
    match Child(t.node, "complexContent")
    case None => None
    case Some(content) =>
      match Child(content, "extension")
      case None => None
      case Some(x) => Some(Declared(x, t.namespaces))
  }

  /** Where the particles that a type does not inherit stand. */
  function Own(t: Declared): Declared {
    match Extension(t) case None => t case Some(x) => x
  }

  /** The known type that a type extends. */
  function BaseOf(c: Catalog, t: Declared): Option<Declared> {
    match Extension(t)
    case None => None
    case Some(x) =>
      if "base" !in x.node.attributes then None
      else
        match ResolveQName(x.node.attributes["base"], x.namespaces, "")
        case Err(_) => None
        case Ok(q) => if q in c.complexTypes then Some(c.complexTypes[q]) else None
  }

  predicate BaseResolves(t: Declared) {
    match Extension(t)
    case None => true
    case Some(x) => "base" in x.node.attributes ==> ResolveQName(x.node.attributes["base"], x.namespaces, "").Ok?
  }

  /** The type of an element: the one written inside it, or the known one that it names. */
  function TypeOf(c: Catalog, e: ChildSpec): Option<Declared> {
    match Child(e.schema, "complexType")
    case Some(complex) => Some(Declared(complex, e.namespaces))
    case None =>
      if "type" !in e.schema.attributes then None
      else
        match ResolveQName(e.schema.attributes["type"], e.namespaces, e.name.ns)
        case Err(_) => None
        case Ok(q) => if q in c.complexTypes then Some(c.complexTypes[q]) else None
  }

  function Children(c: Catalog, depth: nat, e: ChildSpec): Result<seq<ChildSpec>, OrderError> {
    ElementChildren(c, depth, e.name, e.schema, e.namespaces, {})
  }

  function AllowsAny(c: Catalog, depth: nat, e: ChildSpec): Result<bool, OrderError> {
    ContentAllowsAny(c, depth, e.name, e.schema, e.namespaces, {})
  }

  lemma {:induction false} OfType(c: Catalog, depth: nat, e: ChildSpec, t: Declared)
    requires TypeOf(c, e) == Some(t)
    ensures Children(c, depth, e) == ComplexChildren(c, depth, t.node, t.namespaces)
    ensures AllowsAny(c, depth, e) == ComplexAllowsAny(c, depth, t.node, t.namespaces)
  {
    hide ComplexChildren, ComplexAllowsAny;
  }

  /** An element of a type that extends another lists what an element of that other type lists, then the elements of
      its extension in document order. */
  lemma {:induction false} BaseComesFirst(c: Catalog, depth: nat, e: ChildSpec, b: ChildSpec, t: Declared)
    requires TypeOf(c, e) == Some(t) && TypeOf(c, b).Some? && BaseOf(c, t) == TypeOf(c, b)
    requires Children(c, depth, e) != Err(TooDeep)
    ensures Children(c, depth, e).Ok? <==> Children(c, depth, b).Ok? && forall path :: !BrokenAt(c, Own(t), path)
    ensures Children(c, depth, e).Ok? ==>
              var (all, first) := (Children(c, depth, e).value, Children(c, depth, b).value);
              first <= all && Lists(c, Own(t), all[|first|..])
  {
    hide Children, BrokenAt, Lists, ParticleChildren;
    var base := TypeOf(c, b).value;
    OfType(c, depth, e, t);
    OfType(c, depth, b, base);
    hide TypeOf;
    assert BaseChildren(c, depth, Own(t).node, t.namespaces) != Err(TooDeep);
    OrderingDepth.ComplexChildrenDeeper(c, depth - 1, depth, base.node, base.namespaces);
    if Children(c, depth, b).Ok? {
      ParticlesAreListed(c, depth, Own(t));
      if Children(c, depth, e).Ok? {
        var (all, first) := (Children(c, depth, e).value, Children(c, depth, b).value);
        assert all[|first|..] == ParticleChildren(c, depth, Own(t).node, t.namespaces, |Own(t).node.children|).value;
      }
    }
  }

  /** Without a known base type there are its own elements alone. */
  lemma {:induction false} OwnElements(c: Catalog, depth: nat, e: ChildSpec, t: Declared)
    requires TypeOf(c, e) == Some(t) && BaseOf(c, t).None? && Children(c, depth, e) != Err(TooDeep)
    ensures Children(c, depth, e).Ok? <==> BaseResolves(t) && forall path :: !BrokenAt(c, Own(t), path)
    ensures Children(c, depth, e).Ok? ==> Lists(c, Own(t), Children(c, depth, e).value)
  {
    hide Children, BrokenAt, Lists, ParticleChildren;
    OfType(c, depth, e, t);
    hide TypeOf;
    if BaseResolves(t) {
      ParticlesAreListed(c, depth, Own(t));
      var own := ParticleChildren(c, depth, Own(t).node, t.namespaces, |Own(t).node.children|);
      assert own.Ok? ==> [] + own.value == own.value;
    }
  }

  lemma {:induction false} FewerNames(c: Catalog, depth: nat, e: ChildSpec, resolving: set<QName>, fewer: set<QName>)
    requires fewer <= resolving && ElementChildren(c, depth, e.name, e.schema, e.namespaces, resolving).Ok?
    ensures ElementChildren(c, depth, e.name, e.schema, e.namespaces, fewer)
            == ElementChildren(c, depth, e.name, e.schema, e.namespaces, resolving)
    decreases c.elements.Keys + {e.name} - resolving
  {
    hide ComplexChildren, ResolveQName;
    if Child(e.schema, "complexType").None? && "type" !in e.schema.attributes && "ref" in e.schema.attributes {
      var q := ResolveQName(e.schema.attributes["ref"], e.namespaces, e.name.ns).value;
      var target := ChildSpec(JsonKey(q), q, c.elements[q].node, c.elements[q].namespaces);
      FewerNames(c, depth, target, resolving + {e.name}, fewer + {e.name});
    }
  }

  /** An element without a type lists what the element it refers to lists, or nothing. */
  lemma {:induction false} ElementsWithoutType(c: Catalog, depth: nat, e: ChildSpec)
    requires TypeOf(c, e).None? && Children(c, depth, e).Ok?
    ensures if "type" !in e.schema.attributes && "ref" in e.schema.attributes then
              var q := ResolveQName(e.schema.attributes["ref"], e.namespaces, e.name.ns);
              && q.Ok? && q.value in c.elements
              && Children(c, depth, e) ==
                   Children(c, depth, ChildSpec(JsonKey(q.value), q.value, c.elements[q.value].node, c.elements[q.value].namespaces))
            else Children(c, depth, e) == Ok([])
  {
    hide ComplexChildren, ResolveQName;
    if "type" !in e.schema.attributes && "ref" in e.schema.attributes {
      var q := ResolveQName(e.schema.attributes["ref"], e.namespaces, e.name.ns).value;
      assert {} + {e.name} == {e.name};
      FewerNames(c, depth, ChildSpec(JsonKey(q), q, c.elements[q].node, c.elements[q].namespaces), {e.name}, {});
    }
  }

  // ---------- wildcards ----------

  ghost predicate AnyWithin(c: Catalog, d: Declared, lo: nat, hi: nat) {
    exists path :: path != [] && lo <= path[0] < hi && NamedAt(c, d, path, "any")
  }

  ghost predicate HasWildcard(c: Catalog, d: Declared) {
    exists path :: NamedAt(c, d, path, "any")
  }

  lemma {:induction false} AnyInside(c: Catalog, d: Declared, k: nat, inner: Declared)
    requires k < |d.node.children| && d.node.children[k].name != "any"
    requires Inside(c, Declared(d.node.children[k], d.namespaces)) == Some(inner)
    ensures AnyWithin(c, d, k, k + 1) <==> AnyWithin(c, inner, 0, |inner.node.children|)
  {
    assert At(c, d, [k]).value.node.name != "any";
    hide Inside;
    if AnyWithin(c, inner, 0, |inner.node.children|) {
      var path :| path != [] && path[0] < |inner.node.children| && NamedAt(c, inner, path, "any");
      AtBelow(c, d, k, path);
      assert NamedAt(c, d, [k] + path, "any");
    }
    if AnyWithin(c, d, k, k + 1) {
      var path :| path != [] && path[0] == k && NamedAt(c, d, path, "any");
      Split(path, k);
      AtBelow(c, d, k, path[1..]);
      assert NamedAt(c, inner, path[1..], "any");
    }
  }

  lemma {:induction false} AnyLeaf(c: Catalog, d: Declared, k: nat)
    requires k < |d.node.children| && Inside(c, Declared(d.node.children[k], d.namespaces)).None?
    ensures AnyWithin(c, d, k, k + 1) <==> d.node.children[k].name == "any"
  {
    assert At(c, d, [k]).value.node == d.node.children[k];
    hide Inside;
    if AnyWithin(c, d, k, k + 1) {
      var path :| path != [] && path[0] == k && NamedAt(c, d, path, "any");
      Split(path, k);
      if |path| > 1 {
        AtBelow(c, d, k, path[1..]);
      }
    }
    if d.node.children[k].name == "any" {
      assert NamedAt(c, d, [k], "any");
    }
  }

  lemma {:induction false} OneWildcard(c: Catalog, fuel: nat, d: Declared, k: nat)
    requires k < |d.node.children| && OneAllowsAny(c, fuel, d.node.children[k], d.namespaces).Ok?
    ensures OneAllowsAny(c, fuel, d.node.children[k], d.namespaces).value <==> AnyWithin(c, d, k, k + 1)
    decreases fuel, d.node.children[k], 1
  {
    hide AnyWithin, ResolveQName;
    var p := d.node.children[k];
    var inner := Inside(c, Declared(p, d.namespaces));
    if inner.None? {
      AnyLeaf(c, d, k);
    } else {
      Wildcards(c, if p.name == "group" then fuel - 1 else fuel, inner.value, |inner.value.node.children|);
      hide ParticleAllowsAny;
      AnyInside(c, d, k, inner.value);
    }
  }

  lemma {:induction false} Wildcards(c: Catalog, fuel: nat, d: Declared, n: nat)
    requires n <= |d.node.children| && ParticleAllowsAny(c, fuel, d.node, d.namespaces, n).Ok?
    ensures ParticleAllowsAny(c, fuel, d.node, d.namespaces, n).value <==> AnyWithin(c, d, 0, n)
    decreases fuel, d.node, 0, n
  {
    hide OneAllowsAny, NamedAt;
    if n > 0 {
      Wildcards(c, fuel, d, n - 1);
      OneWildcard(c, fuel, d, n - 1);
    }
  }

  lemma {:induction false} ParticlesAllowAny(c: Catalog, fuel: nat, d: Declared)
    requires ParticleAllowsAny(c, fuel, d.node, d.namespaces, |d.node.children|).Ok?
    ensures ParticleAllowsAny(c, fuel, d.node, d.namespaces, |d.node.children|).value <==> HasWildcard(c, d)
  {
    Wildcards(c, fuel, d, |d.node.children|);
    hide ParticleAllowsAny;
    forall path | NamedAt(c, d, path, "any")
      ensures path != [] && path[0] < |d.node.children|
    {
    }
    hide NamedAt;
  }

  /** A content model allows anything exactly when a wildcard stands in the type, or in one it extends. */
  lemma {:induction false} WildcardsAreInherited(c: Catalog, depth: nat, e: ChildSpec, t: Declared)
    requires TypeOf(c, e) == Some(t) && AllowsAny(c, depth, e).Ok?
    ensures BaseOf(c, t).None? ==> (AllowsAny(c, depth, e).value <==> HasWildcard(c, Own(t)))
    ensures forall b: ChildSpec :: TypeOf(c, b).Some? && BaseOf(c, t) == TypeOf(c, b) ==>
              && AllowsAny(c, depth, b).Ok?
              && (AllowsAny(c, depth, e).value <==> AllowsAny(c, depth, b).value || HasWildcard(c, Own(t)))
  {
    hide AllowsAny, HasWildcard, ParticleAllowsAny;
    OfType(c, depth, e, t);
    ParticlesAllowAny(c, depth, Own(t));
    forall b: ChildSpec | TypeOf(c, b).Some? && BaseOf(c, t) == TypeOf(c, b)
      ensures AllowsAny(c, depth, b).Ok?
      ensures AllowsAny(c, depth, e).value <==> AllowsAny(c, depth, b).value || HasWildcard(c, Own(t))
    {
      var base := TypeOf(c, b).value;
      OfType(c, depth, b, base);
      OrderingDepth.ComplexAllowsAnyDeeper(c, depth - 1, depth, base.node, base.namespaces);
    }
    hide TypeOf;
  }
}
