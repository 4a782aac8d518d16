/** The depth to which ordering follows base types and groups: when it is enough, a larger one changes nothing. */
module OrderingDepth {
  import opened Json
  import opened OrderedJson
  import opened Ordering

  lemma {:induction false} OneParticleDeeper(c: Catalog, d: nat, e: nat, particle: XsdNode, namespaces: Namespaces)
    requires d <= e && OneParticle(c, d, particle, namespaces) != Err(TooDeep)
    ensures OneParticle(c, e, particle, namespaces) == OneParticle(c, d, particle, namespaces)
    decreases d, particle, 1
  {
    if particle.name in {"sequence", "choice", "all"} {
      ParticleChildrenDeeper(c, d, e, particle, namespaces, |particle.children|);
    } else if particle.name == "group" && "ref" in particle.attributes {
      var name := ResolveQName(particle.attributes["ref"], namespaces, "");
      if name.Ok? && name.value in c.groups {
        var g := c.groups[name.value];
        ParticleChildrenDeeper(c, d - 1, e - 1, g.node, g.namespaces, |g.node.children|);
      }
    }
  }

  lemma {:induction false} ParticleChildrenDeeper(c: Catalog, d: nat, e: nat, node: XsdNode, namespaces: Namespaces, n: nat)
    requires n <= |node.children| && d <= e && ParticleChildren(c, d, node, namespaces, n) != Err(TooDeep)
    ensures ParticleChildren(c, e, node, namespaces, n) == ParticleChildren(c, d, node, namespaces, n)
    decreases d, node, 0, n
  {
    if n > 0 {
      ParticleChildrenDeeper(c, d, e, node, namespaces, n - 1);
      if ParticleChildren(c, d, node, namespaces, n - 1).Ok? {
        OneParticleDeeper(c, d, e, node.children[n - 1], namespaces);
      }
    }
  }

  lemma {:induction false} ComplexChildrenDeeper(c: Catalog, d: nat, e: nat, complex: XsdNode, namespaces: Namespaces)
    requires d <= e && ComplexChildren(c, d, complex, namespaces) != Err(TooDeep)
    ensures ComplexChildren(c, e, complex, namespaces) == ComplexChildren(c, d, complex, namespaces)
    decreases d
  {
    hide ParticleChildren;
    var extension := match Child(complex, "complexContent") case None => None case Some(x) => Child(x, "extension");
    match extension
    case None => ParticleChildrenDeeper(c, d, e, complex, namespaces, |complex.children|);
    case Some(x) =>
      BaseChildrenDeeper(c, d, e, x, namespaces);
      if BaseChildren(c, d, x, namespaces).Ok? {
        ParticleChildrenDeeper(c, d, e, x, namespaces, |x.children|);
      }
  }

  lemma {:induction false} BaseChildrenDeeper(c: Catalog, d: nat, e: nat, extension: XsdNode, namespaces: Namespaces)
    requires d <= e && BaseChildren(c, d, extension, namespaces) != Err(TooDeep)
    ensures BaseChildren(c, e, extension, namespaces) == BaseChildren(c, d, extension, namespaces)
    decreases d, 0
  {
    if "base" in extension.attributes {
      var name := ResolveQName(extension.attributes["base"], namespaces, "");
      if name.Ok? && name.value in c.complexTypes {
        ComplexChildrenDeeper(c, d - 1, e - 1, c.complexTypes[name.value].node, c.complexTypes[name.value].namespaces);
      }
    }
  }

  lemma {:induction false} ElementChildrenDeeper(c: Catalog, d: nat, e: nat, name: QName, element: XsdNode, namespaces: Namespaces,
                                              resolving: set<QName>)
    requires d <= e && ElementChildren(c, d, name, element, namespaces, resolving) != Err(TooDeep)
    ensures ElementChildren(c, e, name, element, namespaces, resolving) == ElementChildren(c, d, name, element, namespaces, resolving)
    decreases c.elements.Keys + {name} - resolving
  {
    hide ComplexChildren;
    if name !in resolving {
      match Child(element, "complexType")
      case Some(complex) => ComplexChildrenDeeper(c, d, e, complex, namespaces);
      case None =>
        if "type" in element.attributes {
          var q := ResolveQName(element.attributes["type"], namespaces, name.ns);
          if q.Ok? && q.value in c.complexTypes {
            ComplexChildrenDeeper(c, d, e, c.complexTypes[q.value].node, c.complexTypes[q.value].namespaces);
          }
        } else if "ref" in element.attributes {
          var q := ResolveQName(element.attributes["ref"], namespaces, name.ns);
          if q.Ok? && q.value in c.elements {
            ElementChildrenDeeper(c, d, e, q.value, c.elements[q.value].node, c.elements[q.value].namespaces, resolving + {name});
          }
        }
    }
  }

  lemma {:induction false} OneAllowsAnyDeeper(c: Catalog, d: nat, e: nat, particle: XsdNode, namespaces: Namespaces)
    requires d <= e && OneAllowsAny(c, d, particle, namespaces) != Err(TooDeep)
    ensures OneAllowsAny(c, e, particle, namespaces) == OneAllowsAny(c, d, particle, namespaces)
    decreases d, particle, 1
  {
    if particle.name in {"sequence", "choice", "all"} {
      ParticleAllowsAnyDeeper(c, d, e, particle, namespaces, |particle.children|);
    } else if particle.name == "group" && "ref" in particle.attributes {
      var name := ResolveQName(particle.attributes["ref"], namespaces, "");
      if name.Ok? && name.value in c.groups {
        var g := c.groups[name.value];
        ParticleAllowsAnyDeeper(c, d - 1, e - 1, g.node, g.namespaces, |g.node.children|);
      }
    }
  }

  lemma {:induction false} ParticleAllowsAnyDeeper(c: Catalog, d: nat, e: nat, node: XsdNode, namespaces: Namespaces, n: nat)
    requires n <= |node.children| && d <= e && ParticleAllowsAny(c, d, node, namespaces, n) != Err(TooDeep)
    ensures ParticleAllowsAny(c, e, node, namespaces, n) == ParticleAllowsAny(c, d, node, namespaces, n)
    decreases d, node, 0, n
  {
    if n > 0 {
      ParticleAllowsAnyDeeper(c, d, e, node, namespaces, n - 1);
      if ParticleAllowsAny(c, d, node, namespaces, n - 1).Ok? {
        OneAllowsAnyDeeper(c, d, e, node.children[n - 1], namespaces);
      }
    }
  }

  lemma {:induction false} ComplexAllowsAnyDeeper(c: Catalog, d: nat, e: nat, complex: XsdNode, namespaces: Namespaces)
    requires d <= e && ComplexAllowsAny(c, d, complex, namespaces) != Err(TooDeep)
    ensures ComplexAllowsAny(c, e, complex, namespaces) == ComplexAllowsAny(c, d, complex, namespaces)
    decreases d
  {
    hide ParticleAllowsAny;
    var extension := match Child(complex, "complexContent") case None => None case Some(x) => Child(x, "extension");
    match extension
    case None => ParticleAllowsAnyDeeper(c, d, e, complex, namespaces, |complex.children|);
    case Some(x) =>
      BaseAllowsAnyDeeper(c, d, e, x, namespaces);
      if BaseAllowsAny(c, d, x, namespaces).Ok? {
        ParticleAllowsAnyDeeper(c, d, e, x, namespaces, |x.children|);
      }
  }

  lemma {:induction false} BaseAllowsAnyDeeper(c: Catalog, d: nat, e: nat, extension: XsdNode, namespaces: Namespaces)
    requires d <= e && BaseAllowsAny(c, d, extension, namespaces) != Err(TooDeep)
    ensures BaseAllowsAny(c, e, extension, namespaces) == BaseAllowsAny(c, d, extension, namespaces)
    decreases d, 0
  {
    if "base" in extension.attributes {
      var name := ResolveQName(extension.attributes["base"], namespaces, "");
      if name.Ok? && name.value in c.complexTypes {
        ComplexAllowsAnyDeeper(c, d - 1, e - 1, c.complexTypes[name.value].node, c.complexTypes[name.value].namespaces);
      }
    }
  }

  lemma {:induction false} ContentAllowsAnyDeeper(c: Catalog, d: nat, e: nat, name: QName, element: XsdNode, namespaces: Namespaces,
                                              resolving: set<QName>)
    requires d <= e && ContentAllowsAny(c, d, name, element, namespaces, resolving) != Err(TooDeep)
    ensures ContentAllowsAny(c, e, name, element, namespaces, resolving) == ContentAllowsAny(c, d, name, element, namespaces, resolving)
    decreases c.elements.Keys + {name} - resolving
  {
    hide ComplexAllowsAny;
    if name !in resolving {
      match Child(element, "complexType")
      case Some(complex) => ComplexAllowsAnyDeeper(c, d, e, complex, namespaces);
      case None =>
        if "type" in element.attributes {
          var q := ResolveQName(element.attributes["type"], namespaces, name.ns);
          if q.Ok? && q.value in c.complexTypes {
            ComplexAllowsAnyDeeper(c, d, e, c.complexTypes[q.value].node, c.complexTypes[q.value].namespaces);
          }
        } else if "ref" in element.attributes {
          var q := ResolveQName(element.attributes["ref"], namespaces, name.ns);
          if q.Ok? && q.value in c.elements {
            ContentAllowsAnyDeeper(c, d, e, q.value, c.elements[q.value].node, c.elements[q.value].namespaces, resolving + {name});
          }
        }
    }
  }

  lemma {:induction false} OrderNodeDeeper(c: Catalog, d: nat, e: nat, v: Node, spec: ChildSpec, path: string)
    requires d <= e && OrderNode(c, d, v, spec, path) != Err(TooDeep)
    ensures OrderNode(c, e, v, spec, path) == OrderNode(c, d, v, spec, path)
    decreases v, 1
  {
    hide ElementChildren, ContentAllowsAny, Unknown, WithRest, Reported;
    match v
    case Scalar(_) =>
    case Items(items) => OrderItemsDeeper(c, d, e, v, spec, path, |items|);
    case Members(_) =>
      ElementChildrenDeeper(c, d, e, spec.name, spec.schema, spec.namespaces, {});
      var children := ElementChildren(c, d, spec.name, spec.schema, spec.namespaces, {});
      if children.Ok? {
        OrderKnownDeeper(c, d, e, v, children.value, path, |children.value|);
        if OrderKnown(c, d, v, children.value, path, |children.value|).Ok? {
          ContentAllowsAnyDeeper(c, d, e, spec.name, spec.schema, spec.namespaces, {});
        }
      }
  }

  lemma {:induction false} OrderItemsDeeper(c: Catalog, d: nat, e: nat, v: Node, spec: ChildSpec, path: string, n: nat)
    requires v.Items? && n <= |v.items| && d <= e && OrderItems(c, d, v, spec, path, n) != Err(TooDeep)
    ensures OrderItems(c, e, v, spec, path, n) == OrderItems(c, d, v, spec, path, n)
    decreases v, 0, n
  {
    hide OrderNode;
    if n > 0 {
      OrderItemsDeeper(c, d, e, v, spec, path, n - 1);
      if OrderItems(c, d, v, spec, path, n - 1).Ok? {
        OrderNodeDeeper(c, d, e, v.items[n - 1], spec, path);
      }
    }
  }

  lemma {:induction false} OrderKnownDeeper(c: Catalog, d: nat, e: nat, v: Node, children: seq<ChildSpec>, path: string, n: nat)
    requires v.Members? && n <= |children| && d <= e && OrderKnown(c, d, v, children, path, n) != Err(TooDeep)
    ensures OrderKnown(c, e, v, children, path, n) == OrderKnown(c, d, v, children, path, n)
    decreases v, 0, n
  {
    hide OrderNode, Insert;
    if n > 0 {
      OrderKnownDeeper(c, d, e, v, children, path, n - 1);
      var key := children[n - 1].key;
      var i := IndexOf(v.members, key);
      if OrderKnown(c, d, v, children, path, n - 1).Ok? && i < |v.members| {
        OrderNodeDeeper(c, d, e, v.members[i].node, children[n - 1], path + "/" + key);
      }
    }
  }

  /** Whatever ordering a document gives, unless the depth was too small, every larger depth gives. */
  lemma {:induction false} OrderDocumentDeeper(c: Catalog, d: nat, e: nat, document: Node)
    requires d <= e && OrderDocument(c, d, document) != Err(TooDeep)
    ensures OrderDocument(c, e, document) == OrderDocument(c, d, document)
  {
    hide OrderNode;
    if document.Members? && |document.members| == 1 && |Candidates(c, document.members[0].name)| == 1 {
      var root := document.members[0];
      var q :| q in Candidates(c, root.name);
      forall other | other in Candidates(c, root.name)
        ensures other == q
      {
        OnlyCandidate(Candidates(c, root.name), q, other);
      }
      OrderNodeDeeper(c, d, e, root.node, ChildSpec(root.name, q, c.elements[q].node, c.elements[q].namespaces), root.name);
    }
  }

  // ---------- a depth that is enough ----------

  /** What the depth counts: the types and groups of the catalogue. */
  datatype Definition = Type(name: QName) | Group(name: QName)

  /** The particle stands for a reference to the group, or contains one. */
  ghost predicate NamesGroup(c: Catalog, particle: XsdNode, namespaces: Namespaces, q: QName)
    decreases particle
  {
    if particle.name in {"sequence", "choice", "all"} then
      exists i :: 0 <= i < |particle.children| && NamesGroup(c, particle.children[i], namespaces, q)
    else
      particle.name == "group" && "ref" in particle.attributes && q in c.groups
      && ResolveQName(particle.attributes["ref"], namespaces, "") == Ok(q)
  }

  ghost predicate ContentNames(c: Catalog, node: XsdNode, namespaces: Namespaces, q: QName) {
    exists i :: 0 <= i < |node.children| && NamesGroup(c, node.children[i], namespaces, q)
  }

  /** The extension that a type's content is given by, when it extends another type. */
  function ExtensionOf(complex: XsdNode): Option<XsdNode> {
    match Child(complex, "complexContent") case None => None case Some(x) => Child(x, "extension")
  }

  ghost predicate NamesBase(c: Catalog, extension: XsdNode, namespaces: Namespaces, q: QName) {
    "base" in extension.attributes && q in c.complexTypes
    && ResolveQName(extension.attributes["base"], namespaces, "") == Ok(q)
  }

  /** The type's definition refers to this one: its base type, or a group in its content. */
  ghost predicate TypeNames(c: Catalog, complex: XsdNode, namespaces: Namespaces, d: Definition) {
    match ExtensionOf(complex)
    case None => d.Group? && ContentNames(c, complex, namespaces, d.name)
    case Some(x) => if d.Group? then ContentNames(c, x, namespaces, d.name) else NamesBase(c, x, namespaces, d.name)
  }

  ghost predicate Defined(c: Catalog, d: Definition) {
    if d.Type? then d.name in c.complexTypes else d.name in c.groups
  }

  ghost predicate Names(c: Catalog, a: Definition, b: Definition) {
    && Defined(c, a) && Defined(c, b)
    && match a
       case Type(q) => TypeNames(c, c.complexTypes[q].node, c.complexTypes[q].namespaces, b)
       case Group(q) => b.Group? && ContentNames(c, c.groups[q].node, c.groups[q].namespaces, b.name)
  }

  /** Definitions each of which refers to the next. */
  ghost predicate IsChain(c: Catalog, chain: seq<Definition>) {
    && (forall i :: 0 <= i < |chain| ==> Defined(c, chain[i]))
    && forall i :: 0 <= i < |chain| - 1 ==> Names(c, chain[i], chain[i + 1])
  }

  /** No type and no group refers to itself, directly or through others. */
  ghost predicate Acyclic(c: Catalog) {
    forall chain :: IsChain(c, chain) && |chain| >= 2 ==> chain[0] != chain[|chain| - 1]
  }

  function Definitions(c: Catalog): set<Definition> {
    (set q | q in c.complexTypes :: Type(q)) + (set q | q in c.groups :: Group(q))
  }

  lemma {:induction false} CountTypes(names: set<QName>)
    ensures |set q | q in names :: Type(q)| == |names|
    ensures |set q | q in names :: Group(q)| == |names|
  {
    if names != {} {
      var n :| n in names;
      CountTypes(names - {n});
      assert (set q | q in names :: Type(q)) == (set q | q in names - {n} :: Type(q)) + {Type(n)};
      assert (set q | q in names :: Group(q)) == (set q | q in names - {n} :: Group(q)) + {Group(n)};
    }
  }

  lemma {:induction false} DistinctWithin(chain: seq<Definition>, all: set<Definition>)
    requires forall i :: 0 <= i < |chain| ==> chain[i] in all
    requires forall i, j :: 0 <= i < j < |chain| ==> chain[i] != chain[j]
    ensures |chain| <= |all|
  {
    if chain != [] {
      var init, last := chain[..|chain| - 1], chain[|chain| - 1];
      DistinctWithin(init, all - {last});
    }
  }

  lemma {:induction false} PartOfChain(c: Catalog, chain: seq<Definition>, i: nat, j: nat)
    requires IsChain(c, chain) && i < j < |chain|
    ensures IsChain(c, chain[i..j + 1])
  {
    hide Names, Defined;
    var part := chain[i..j + 1];
    assert forall k :: 0 <= k < |part| ==> part[k] == chain[i + k];
    forall k | 0 <= k < |part| - 1
      ensures Names(c, part[k], part[k + 1])
    {
      assert Names(c, chain[i + k], chain[i + k + 1]);
    }
  }

  lemma {:induction false} CountDefinitions(c: Catalog)
    ensures |Definitions(c)| == |c.complexTypes| + |c.groups|
  {
    CountTypes(c.complexTypes.Keys);
    CountTypes(c.groups.Keys);
    var types, groups := set q | q in c.complexTypes :: Type(q), set q | q in c.groups :: Group(q);
    assert types == (set q | q in c.complexTypes.Keys :: Type(q)) && groups == (set q | q in c.groups.Keys :: Group(q));
    assert types !! groups && Definitions(c) == types + groups;
  }

  lemma {:induction false} NamedOnce(c: Catalog, chain: seq<Definition>, i: nat, j: nat)
    requires Acyclic(c) && IsChain(c, chain) && i < j < |chain|
    ensures chain[i] != chain[j]
  {
    PartOfChain(c, chain, i, j);
    hide IsChain;
    var part := chain[i..j + 1];
    assert part[0] == chain[i] && part[|part| - 1] == chain[j];
  }

  lemma {:induction false} ChainDefined(c: Catalog, chain: seq<Definition>, i: nat)
    requires IsChain(c, chain) && i < |chain|
    ensures chain[i] in Definitions(c)
  {
    hide Names;
    assert Defined(c, chain[i]);
  }

  /** A chain of an acyclic catalogue names each definition once, so it is not longer than there are definitions. */
  lemma {:induction false} ChainIsShort(c: Catalog, chain: seq<Definition>)
    requires Acyclic(c) && IsChain(c, chain)
    ensures |chain| <= |c.complexTypes| + |c.groups|
  {
    hide Acyclic, IsChain, Definitions;
    CountDefinitions(c);
    forall i | 0 <= i < |chain|
      ensures chain[i] in Definitions(c)
    {
      ChainDefined(c, chain, i);
    }
    forall i, j | 0 <= i < j < |chain|
      ensures chain[i] != chain[j]
    {
      NamedOnce(c, chain, i, j);
    }
    DistinctWithin(chain, Definitions(c));
  }

  /** After the chain, that much depth is left. */
  ghost predicate Leaves(c: Catalog, chain: seq<Definition>, depth: nat) {
    IsChain(c, chain) && depth + |chain| >= |c.complexTypes| + |c.groups|
  }

  /** The definition can come next: the chain is empty, or its last definition refers to it. */
  ghost predicate ComesNext(c: Catalog, chain: seq<Definition>, d: Definition) {
    Defined(c, d) && (chain == [] || Names(c, chain[|chain| - 1], d))
  }

  lemma {:induction false} OneDeeper(c: Catalog, chain: seq<Definition>, depth: nat, d: Definition)
    requires Acyclic(c) && Leaves(c, chain, depth) && ComesNext(c, chain, d)
    ensures depth > 0 && Leaves(c, chain + [d], depth - 1)
  {
    hide Names, Defined;
    var longer := chain + [d];
    assert IsChain(c, longer) by {
      forall i | 0 <= i < |longer| - 1
        ensures Names(c, longer[i], longer[i + 1])
      {
        assert longer[i] == chain[i];
      }
    }
    ChainIsShort(c, longer);
  }

  lemma {:induction false} OneParticleEnough(c: Catalog, depth: nat, particle: XsdNode, namespaces: Namespaces, chain: seq<Definition>)
    requires Acyclic(c) && Leaves(c, chain, depth)
    requires forall q :: NamesGroup(c, particle, namespaces, q) ==> ComesNext(c, chain, Group(q))
    ensures OneParticle(c, depth, particle, namespaces) != Err(TooDeep)
    ensures OneAllowsAny(c, depth, particle, namespaces) != Err(TooDeep)
    decreases depth, particle, 1
  {
    hide Acyclic, Leaves, ComesNext;
    if particle.name in {"sequence", "choice", "all"} {
      ParticlesEnough(c, depth, particle, namespaces, |particle.children|, chain);
    } else if particle.name == "group" && "ref" in particle.attributes {
      var name := ResolveQName(particle.attributes["ref"], namespaces, "");
      if name.Ok? && name.value in c.groups {
        assert NamesGroup(c, particle, namespaces, name.value);
        GroupNext(c, depth, name.value, chain);
        var g := c.groups[name.value];
        ParticlesEnough(c, depth - 1, g.node, g.namespaces, |g.node.children|, chain + [Group(name.value)]);
      }
    }
  }

  lemma {:induction false} GroupNext(c: Catalog, depth: nat, q: QName, chain: seq<Definition>)
    requires Acyclic(c) && Leaves(c, chain, depth) && ComesNext(c, chain, Group(q))
    ensures depth > 0 && Leaves(c, chain + [Group(q)], depth - 1) && q in c.groups
    ensures forall p :: ContentNames(c, c.groups[q].node, c.groups[q].namespaces, p) ==> ComesNext(c, chain + [Group(q)], Group(p))
  {
    OneDeeper(c, chain, depth, Group(q));
    hide Acyclic, Leaves, ContentNames;
    var g := c.groups[q];
    forall p | ContentNames(c, g.node, g.namespaces, p)
      ensures ComesNext(c, chain + [Group(q)], Group(p))
    {
      NamedIsDefined(c, g.node, g.namespaces, p);
      assert Names(c, Group(q), Group(p));
    }
  }

  lemma {:induction false} GroupIsDefined(c: Catalog, particle: XsdNode, namespaces: Namespaces, q: QName)
    requires NamesGroup(c, particle, namespaces, q)
    ensures q in c.groups
    decreases particle
  {
    if particle.name in {"sequence", "choice", "all"} {
      var i :| 0 <= i < |particle.children| && NamesGroup(c, particle.children[i], namespaces, q);
      GroupIsDefined(c, particle.children[i], namespaces, q);
    }
  }

  lemma {:induction false} NamedIsDefined(c: Catalog, node: XsdNode, namespaces: Namespaces, q: QName)
    requires ContentNames(c, node, namespaces, q)
    ensures q in c.groups
  {
    var i :| 0 <= i < |node.children| && NamesGroup(c, node.children[i], namespaces, q);
    GroupIsDefined(c, node.children[i], namespaces, q);
  }

  lemma {:induction false} ParticlesEnough(c: Catalog, depth: nat, node: XsdNode, namespaces: Namespaces, n: nat, chain: seq<Definition>)
    requires n <= |node.children| && Acyclic(c) && Leaves(c, chain, depth)
    requires forall q :: ContentNames(c, node, namespaces, q) ==> ComesNext(c, chain, Group(q))
    ensures ParticleChildren(c, depth, node, namespaces, n) != Err(TooDeep)
    ensures ParticleAllowsAny(c, depth, node, namespaces, n) != Err(TooDeep)
    decreases depth, node, 0, n
  {
    hide Acyclic, Leaves, ComesNext, NamesGroup, OneParticle, OneAllowsAny;
    if n > 0 {
      ParticlesEnough(c, depth, node, namespaces, n - 1, chain);
      forall q | NamesGroup(c, node.children[n - 1], namespaces, q)
        ensures ComesNext(c, chain, Group(q))
      {
        assert ContentNames(c, node, namespaces, q);
      }
      OneParticleEnough(c, depth, node.children[n - 1], namespaces, chain);
    }
  }

  lemma {:induction false} ComplexEnough(c: Catalog, depth: nat, complex: XsdNode, namespaces: Namespaces, chain: seq<Definition>)
    requires Acyclic(c) && Leaves(c, chain, depth)
    requires forall d :: TypeNames(c, complex, namespaces, d) ==> ComesNext(c, chain, d)
    ensures ComplexChildren(c, depth, complex, namespaces) != Err(TooDeep)
    ensures ComplexAllowsAny(c, depth, complex, namespaces) != Err(TooDeep)
    decreases depth
  {
    hide Acyclic, Leaves, ComesNext, ContentNames, ParticleChildren, ParticleAllowsAny;
    match ExtensionOf(complex)
    case None =>
      forall q | ContentNames(c, complex, namespaces, q)
        ensures ComesNext(c, chain, Group(q))
      {
        assert TypeNames(c, complex, namespaces, Group(q));
      }
      ParticlesEnough(c, depth, complex, namespaces, |complex.children|, chain);
    case Some(x) =>
      forall q | ContentNames(c, x, namespaces, q)
        ensures ComesNext(c, chain, Group(q))
      {
        assert TypeNames(c, complex, namespaces, Group(q));
      }
      ParticlesEnough(c, depth, x, namespaces, |x.children|, chain);
      if "base" in x.attributes {
        var name := ResolveQName(x.attributes["base"], namespaces, "");
        if name.Ok? && name.value in c.complexTypes {
          assert TypeNames(c, complex, namespaces, Type(name.value));
          TypeEnough(c, depth, name.value, chain);
        }
      }
  }

  lemma {:induction false} TypeEnough(c: Catalog, depth: nat, q: QName, chain: seq<Definition>)
    requires Acyclic(c) && Leaves(c, chain, depth) && q in c.complexTypes && ComesNext(c, chain, Type(q))
    ensures depth > 0
    ensures var t := c.complexTypes[q];
            && ComplexChildren(c, depth - 1, t.node, t.namespaces) != Err(TooDeep)
            && ComplexAllowsAny(c, depth - 1, t.node, t.namespaces) != Err(TooDeep)
    decreases depth, 0
  {
    OneDeeper(c, chain, depth, Type(q));
    var t, longer := c.complexTypes[q], chain + [Type(q)];
    forall d | TypeNames(c, t.node, t.namespaces, d)
      ensures ComesNext(c, longer, d)
    {
      TypeNamesDefined(c, t.node, t.namespaces, d);
      assert Names(c, Type(q), d);
    }
    ComplexEnough(c, depth - 1, t.node, t.namespaces, longer);
  }

  lemma {:induction false} TypeNamesDefined(c: Catalog, complex: XsdNode, namespaces: Namespaces, d: Definition)
    requires TypeNames(c, complex, namespaces, d)
    ensures Defined(c, d)
  {
    if d.Group? {
      NamedIsDefined(c, if ExtensionOf(complex).Some? then ExtensionOf(complex).value else complex, namespaces, d.name);
    }
  }

  /** The content model of a type or of an inline type, from the top. */
  lemma {:induction false} TopEnough(c: Catalog, depth: nat, complex: XsdNode, namespaces: Namespaces)
    requires Acyclic(c) && depth >= |c.complexTypes| + |c.groups|
    ensures ComplexChildren(c, depth, complex, namespaces) != Err(TooDeep)
    ensures ComplexAllowsAny(c, depth, complex, namespaces) != Err(TooDeep)
  {
    forall d | TypeNames(c, complex, namespaces, d)
      ensures ComesNext(c, [], d)
    {
      TypeNamesDefined(c, complex, namespaces, d);
    }
    ComplexEnough(c, depth, complex, namespaces, []);
  }

  lemma {:induction false} ElementEnough(c: Catalog, depth: nat, name: QName, element: XsdNode, namespaces: Namespaces,
                                         resolving: set<QName>)
    requires Acyclic(c) && depth >= |c.complexTypes| + |c.groups|
    ensures ElementChildren(c, depth, name, element, namespaces, resolving) != Err(TooDeep)
    ensures ContentAllowsAny(c, depth, name, element, namespaces, resolving) != Err(TooDeep)
    decreases c.elements.Keys + {name} - resolving
  {
    hide ComplexChildren, ComplexAllowsAny, Acyclic;
    if name !in resolving {
      match Child(element, "complexType")
      case Some(complex) => TopEnough(c, depth, complex, namespaces);
      case None =>
        if "type" in element.attributes {
          var q := ResolveQName(element.attributes["type"], namespaces, name.ns);
          if q.Ok? && q.value in c.complexTypes {
            TopEnough(c, depth, c.complexTypes[q.value].node, c.complexTypes[q.value].namespaces);
          }
        } else if "ref" in element.attributes {
          var q := ResolveQName(element.attributes["ref"], namespaces, name.ns);
          if q.Ok? && q.value in c.elements {
            ElementEnough(c, depth, q.value, c.elements[q.value].node, c.elements[q.value].namespaces, resolving + {name});
          }
        }
    }
  }

  lemma {:induction false} NodeEnough(c: Catalog, depth: nat, v: Node, spec: ChildSpec, path: string)
    requires Acyclic(c) && depth >= |c.complexTypes| + |c.groups|
    ensures OrderNode(c, depth, v, spec, path) != Err(TooDeep)
    decreases v, 1
  {
    hide ElementChildren, ContentAllowsAny, Unknown, WithRest, Reported, Acyclic;
    match v
    case Scalar(_) =>
    case Items(items) => ItemsEnough(c, depth, v, spec, path, |items|);
    case Members(_) =>
      ElementEnough(c, depth, spec.name, spec.schema, spec.namespaces, {});
      var children := ElementChildren(c, depth, spec.name, spec.schema, spec.namespaces, {});
      if children.Ok? {
        KnownEnough(c, depth, v, children.value, path, |children.value|);
      }
  }

  lemma {:induction false} ItemsEnough(c: Catalog, depth: nat, v: Node, spec: ChildSpec, path: string, n: nat)
    requires Acyclic(c) && depth >= |c.complexTypes| + |c.groups| && v.Items? && n <= |v.items|
    ensures OrderItems(c, depth, v, spec, path, n) != Err(TooDeep)
    decreases v, 0, n
  {
    hide OrderNode, Acyclic;
    if n > 0 {
      ItemsEnough(c, depth, v, spec, path, n - 1);
      NodeEnough(c, depth, v.items[n - 1], spec, path);
    }
  }

  lemma {:induction false} KnownEnough(c: Catalog, depth: nat, v: Node, children: seq<ChildSpec>, path: string, n: nat)
    requires Acyclic(c) && depth >= |c.complexTypes| + |c.groups| && v.Members? && n <= |children|
    ensures OrderKnown(c, depth, v, children, path, n) != Err(TooDeep)
    decreases v, 0, n
  {
    hide OrderNode, Insert, Acyclic;
    if n > 0 {
      KnownEnough(c, depth, v, children, path, n - 1);
      var key := children[n - 1].key;
      var i := IndexOf(v.members, key);
      if i < |v.members| {
        NodeEnough(c, depth, v.members[i].node, children[n - 1], path + "/" + key);
      }
    }
  }

  /** When no type and no group refers to itself, as many levels as there are types and groups are enough for every
      document, so any larger depth orders it the same way. */
  lemma {:induction false} DepthIsEnough(c: Catalog, depth: nat, document: Node)
    requires Acyclic(c) && depth >= |c.complexTypes| + |c.groups|
    ensures OrderDocument(c, depth, document) != Err(TooDeep)
    ensures OrderDocument(c, depth, document) == OrderDocument(c, |c.complexTypes| + |c.groups|, document)
  {
    hide OrderNode, Acyclic;
    var enough := |c.complexTypes| + |c.groups|;
    if document.Members? && |document.members| == 1 && |Candidates(c, document.members[0].name)| == 1 {
      var root := document.members[0];
      var q :| q in Candidates(c, root.name);
      forall other | other in Candidates(c, root.name)
        ensures other == q
      {
        OnlyCandidate(Candidates(c, root.name), q, other);
      }
      var spec := ChildSpec(root.name, q, c.elements[q].node, c.elements[q].namespaces);
      NodeEnough(c, enough, root.node, spec, root.name);
      NodeEnough(c, depth, root.node, spec, root.name);
    }
    OrderDocumentDeeper(c, enough, depth, document);
  }
}
