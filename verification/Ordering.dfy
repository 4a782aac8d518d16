/** Member order after the target schema's content model, from ordering.rs. */
module Ordering {
  import opened Json
  import opened OrderedJson
  import opened TextOrder

  const COMMON_NS := "http://lca.jrc.it/ILCD/Common"
  const MAX_REPORTED_UNSUPPORTED_ELEMENTS: nat := 200

  datatype QName = QName(ns: string, local: string)

  datatype XsdNode = XsdNode(name: string, attributes: map<string, string>, children: seq<XsdNode>)

  type Namespaces = map<string, string>

  datatype Declared = Declared(node: XsdNode, namespaces: Namespaces)

  datatype Catalog = Catalog(elements: map<QName, Declared>, complexTypes: map<QName, Declared>, groups: map<QName, Declared>)

  datatype ChildSpec = ChildSpec(key: string, name: QName, schema: XsdNode, namespaces: Namespaces)

  datatype OrderError = SchemaMissing | SchemaCycle(name: QName) | SchemaReference | TooDeep

  datatype Unsupported = Unsupported(path: string, element: string)

  // ---------- the content model ----------

  function SplitOnce(s: string): Option<(string, string)> {
    if s == "" then None
    else if s[0] == ':' then Some(("", s[1..]))
    else
      match SplitOnce(s[1..])
      case None => None
      case Some((prefix, local)) => Some(([s[0]] + prefix, local))
  }

  function ResolveQName(value: string, namespaces: Namespaces, fallback: string): Result<QName, OrderError> {
    var (prefix, local) := match SplitOnce(value) case None => ("", value) case Some(pair) => pair;
    if prefix in namespaces then Ok(QName(namespaces[prefix], local))
    else if fallback != "" then Ok(QName(fallback, local))
    else Err(SchemaReference)
  }

  function JsonKey(name: QName): string {
    if name.ns == COMMON_NS then "common:" + name.local else name.local
  }

  function Child(node: XsdNode, name: string): (r: Option<XsdNode>)
    ensures r.Some? ==> r.value in node.children
  {
    FirstNamed(node.children, name)
  }

  function FirstNamed(nodes: seq<XsdNode>, name: string): (r: Option<XsdNode>)
    ensures r.Some? ==> r.value in nodes
  {
    if nodes == [] then None else if nodes[0].name == name then Some(nodes[0]) else FirstNamed(nodes[1..], name)
  }

  function ResolveElement(c: Catalog, element: XsdNode, namespaces: Namespaces): Result<ChildSpec, OrderError> {
    if "ref" in element.attributes then
      match ResolveQName(element.attributes["ref"], namespaces, "")
      case Err(e) => Err(e)
      case Ok(qname) =>
        if qname in c.elements then
          Ok(ChildSpec(JsonKey(qname), qname, c.elements[qname].node, c.elements[qname].namespaces))
        else Err(SchemaReference)
    else if "name" in element.attributes then
      var qname := QName(if "" in namespaces then namespaces[""] else "", element.attributes["name"]);
      Ok(ChildSpec(JsonKey(qname), qname, element, namespaces))
    else Err(SchemaReference)
  }

  /** The children that one particle stands for; groups are expanded where they are referred to. */
  function OneParticle(c: Catalog, fuel: nat, particle: XsdNode, namespaces: Namespaces): Result<seq<ChildSpec>, OrderError>
    decreases fuel, particle, 1
  {
    if particle.name in {"sequence", "choice", "all"} then ParticleChildren(c, fuel, particle, namespaces, |particle.children|)
    else if particle.name == "group" then
      if "ref" !in particle.attributes then Ok([])
      else
        match ResolveQName(particle.attributes["ref"], namespaces, "")
        case Err(e) => Err(e)
        case Ok(qname) =>
          if qname !in c.groups then Err(SchemaReference)
          else if fuel == 0 then Err(TooDeep)
          else
            var g := c.groups[qname];
            ParticleChildren(c, fuel - 1, g.node, g.namespaces, |g.node.children|)
    else if particle.name == "element" then
      match ResolveElement(c, particle, namespaces)
      case Err(e) => Err(e)
      case Ok(spec) => Ok([spec])
    else Ok([])
  }

  /** The children of the first `n` particles, one after another. */
  function ParticleChildren(c: Catalog, fuel: nat, node: XsdNode, namespaces: Namespaces, n: nat)
    : Result<seq<ChildSpec>, OrderError>
    requires n <= |node.children|
    decreases fuel, node, 0, n
  {
    if n == 0 then Ok([])
    else
      match ParticleChildren(c, fuel, node, namespaces, n - 1)
      case Err(e) => Err(e)
      case Ok(before) =>
        match OneParticle(c, fuel, node.children[n - 1], namespaces)
        case Err(e) => Err(e)
        case Ok(own) => Ok(before + own)
  }

  /** The children of a type: those of the base type it extends, if known, before its own. */
  function ComplexChildren(c: Catalog, fuel: nat, complex: XsdNode, namespaces: Namespaces): Result<seq<ChildSpec>, OrderError>
    decreases fuel
  {
    var extension := match Child(complex, "complexContent") case None => None case Some(x) => Child(x, "extension");
    match extension
    case None => ParticleChildren(c, fuel, complex, namespaces, |complex.children|)
    case Some(x) =>
      match BaseChildren(c, fuel, x, namespaces)
      case Err(e) => Err(e)
      case Ok(before) =>
        match ParticleChildren(c, fuel, x, namespaces, |x.children|)
        case Err(e) => Err(e)
        case Ok(own) => Ok(before + own)
  }

  function BaseChildren(c: Catalog, fuel: nat, extension: XsdNode, namespaces: Namespaces): Result<seq<ChildSpec>, OrderError>
    decreases fuel, 0
  {
    if "base" !in extension.attributes then Ok([])
    else
      match ResolveQName(extension.attributes["base"], namespaces, "")
      case Err(e) => Err(e)
      case Ok(qname) =>
        if qname !in c.complexTypes then Ok([])
        else if fuel == 0 then Err(TooDeep)
        else ComplexChildren(c, fuel - 1, c.complexTypes[qname].node, c.complexTypes[qname].namespaces)
  }

  /** The flattened content model of an element; a chain of references that comes back to a name is an error. */
  function ElementChildren(c: Catalog, fuel: nat, name: QName, element: XsdNode, namespaces: Namespaces, resolving: set<QName>)
    : Result<seq<ChildSpec>, OrderError>
    decreases c.elements.Keys + {name} - resolving
  {
    if name in resolving then Err(SchemaCycle(name))
    else
      match Child(element, "complexType")
      case Some(complex) => ComplexChildren(c, fuel, complex, namespaces)
      case None =>
        if "type" in element.attributes then
          match ResolveQName(element.attributes["type"], namespaces, name.ns)
          case Err(e) => Err(e)
          case Ok(qname) =>
            if qname in c.complexTypes then
              ComplexChildren(c, fuel, c.complexTypes[qname].node, c.complexTypes[qname].namespaces)
            else Ok([])
        else if "ref" in element.attributes then
          match ResolveQName(element.attributes["ref"], namespaces, name.ns)
          case Err(e) => Err(e)
          case Ok(qname) =>
            if qname !in c.elements then Err(SchemaReference)
            else ElementChildren(c, fuel, qname, c.elements[qname].node, c.elements[qname].namespaces, resolving + {name})
        else Ok([])
  }

  // ---------- wildcards ----------

  function OneAllowsAny(c: Catalog, fuel: nat, particle: XsdNode, namespaces: Namespaces): Result<bool, OrderError>
    decreases fuel, particle, 1
  {
    if particle.name in {"sequence", "choice", "all"} then ParticleAllowsAny(c, fuel, particle, namespaces, |particle.children|)
    else if particle.name == "group" then
      if "ref" !in particle.attributes then Ok(false)
      else
        match ResolveQName(particle.attributes["ref"], namespaces, "")
        case Err(e) => Err(e)
        case Ok(qname) =>
          if qname !in c.groups then Err(SchemaReference)
          else if fuel == 0 then Err(TooDeep)
          else
            var g := c.groups[qname];
            ParticleAllowsAny(c, fuel - 1, g.node, g.namespaces, |g.node.children|)
    else Ok(particle.name == "any")
  }

  function ParticleAllowsAny(c: Catalog, fuel: nat, node: XsdNode, namespaces: Namespaces, n: nat): Result<bool, OrderError>
    requires n <= |node.children|
    decreases fuel, node, 0, n
  {
    if n == 0 then Ok(false)
    else
      match ParticleAllowsAny(c, fuel, node, namespaces, n - 1)
      case Err(e) => Err(e)
      case Ok(before) =>
        match OneAllowsAny(c, fuel, node.children[n - 1], namespaces)
        case Err(e) => Err(e)
        case Ok(own) => Ok(before || own)
  }

  function ComplexAllowsAny(c: Catalog, fuel: nat, complex: XsdNode, namespaces: Namespaces): Result<bool, OrderError>
    decreases fuel
  {
    var extension := match Child(complex, "complexContent") case None => None case Some(x) => Child(x, "extension");
    match extension
    case None => ParticleAllowsAny(c, fuel, complex, namespaces, |complex.children|)
    case Some(x) =>
      match BaseAllowsAny(c, fuel, x, namespaces)
      case Err(e) => Err(e)
      case Ok(before) =>
        match ParticleAllowsAny(c, fuel, x, namespaces, |x.children|)
        case Err(e) => Err(e)
        case Ok(own) => Ok(before || own)
  }

  function BaseAllowsAny(c: Catalog, fuel: nat, extension: XsdNode, namespaces: Namespaces): Result<bool, OrderError>
    decreases fuel, 0
  {
    if "base" !in extension.attributes then Ok(false)
    else
      match ResolveQName(extension.attributes["base"], namespaces, "")
      case Err(e) => Err(e)
      case Ok(qname) =>
        if qname !in c.complexTypes then Ok(false)
        else if fuel == 0 then Err(TooDeep)
        else ComplexAllowsAny(c, fuel - 1, c.complexTypes[qname].node, c.complexTypes[qname].namespaces)
  }

  /** Whether the content model has a wildcard; a chain of references that comes back to a name has none. */
  function ContentAllowsAny(c: Catalog, fuel: nat, name: QName, element: XsdNode, namespaces: Namespaces, resolving: set<QName>)
    : Result<bool, OrderError>
    decreases c.elements.Keys + {name} - resolving
  {
    if name in resolving then Ok(false)
    else
      match Child(element, "complexType")
      case Some(complex) => ComplexAllowsAny(c, fuel, complex, namespaces)
      case None =>
        if "type" in element.attributes then
          match ResolveQName(element.attributes["type"], namespaces, name.ns)
          case Err(e) => Err(e)
          case Ok(qname) =>
            if qname in c.complexTypes then
              ComplexAllowsAny(c, fuel, c.complexTypes[qname].node, c.complexTypes[qname].namespaces)
            else Ok(false)
        else if "ref" in element.attributes then
          match ResolveQName(element.attributes["ref"], namespaces, name.ns)
          case Err(e) => Err(e)
          case Ok(qname) =>
            if qname !in c.elements then Err(SchemaReference)
            else ContentAllowsAny(c, fuel, qname, c.elements[qname].node, c.elements[qname].namespaces, resolving + {name})
        else Ok(false)
  }

  // ---------- ordered maps ----------

  /** The place of a name among members, the number of members when it has none. */
  function IndexOf(ms: seq<Member>, name: string): (i: nat)
    ensures i <= |ms|
    ensures i < |ms| ==> ms[i].name == name
    ensures forall j :: 0 <= j < i ==> ms[j].name != name
  {
    if ms == [] then 0 else if ms[0].name == name then 0 else 1 + IndexOf(ms[1..], name)
  }

  predicate Has(ms: seq<Member>, name: string) {
    IndexOf(ms, name) < |ms|
  }

  /** Inserts as the ordered map does: a known name keeps its place. */
  function Insert(ms: seq<Member>, name: string, node: Node): seq<Member> {
    var i := IndexOf(ms, name);
    if i < |ms| then ms[i := Member(name, node)] else ms + [Member(name, node)]
  }

  function Inserted(names: seq<string>, name: string): seq<string> {
    if name in names then names else names + [name]
  }

  /** A list without its repetitions. */
  function FirstOccurrences(names: seq<string>): seq<string> {
    if names == [] then [] else Inserted(FirstOccurrences(names[..|names| - 1]), names[|names| - 1])
  }

  lemma {:induction false} InsertNames(ms: seq<Member>, name: string, node: Node)
    requires DistinctNames(ms)
    ensures DistinctNames(Insert(ms, name, node))
    ensures NamesOf(Insert(ms, name, node)) == Inserted(NamesOf(ms), name)
    ensures Has(ms, name) <==> name in NamesOf(ms)
  {
    var i := IndexOf(ms, name);
    if i < |ms| {
      assert NamesOf(ms)[i] == name;
      assert NamesOf(ms[i := Member(name, node)]) == NamesOf(ms);
    } else {
      assert NamesOf(ms + [Member(name, node)]) == NamesOf(ms) + [name];
      assert name !in NamesOf(ms);
    }
  }

  /** Every member of `out` means the same as the member of that name in `ms`. */
  ghost predicate Faithful(out: seq<Member>, ms: seq<Member>) {
    DistinctNames(out) && forall i :: 0 <= i < |out| ==> Has(ms, out[i].name) && Means(out[i], ms)
  }

  ghost predicate Means(m: Member, ms: seq<Member>)
    requires Has(ms, m.name)
  {
    Valid(m.node) && Erase(m.node) == Erase(ms[IndexOf(ms, m.name)].node)
  }

  lemma {:induction false} InsertFaithful(out: seq<Member>, ms: seq<Member>, name: string, node: Node)
    requires Faithful(out, ms) && Has(ms, name) && Means(Member(name, node), ms)
    ensures Faithful(Insert(out, name, node), ms)
  {
    hide Means, Has;
    InsertNames(out, name, node);
    var now := Insert(out, name, node);
    forall i | 0 <= i < |now|
      ensures Has(ms, now[i].name) && Means(now[i], ms)
    {
    }
  }

  // ---------- ordering ----------

  predicate Special(name: string) {
    name != "" && (name[0] == '@' || name[0] == '#')
  }

  /** The members of the first `n` that the content model does not know, in document order. */
  function Unknown(ms: seq<Member>, known: seq<Member>, n: nat): seq<string>
    requires n <= |ms|
  {
    if n == 0 then []
    else
      Unknown(ms, known, n - 1) +
      if Has(known, ms[n - 1].name) || Special(ms[n - 1].name) then [] else [ms[n - 1].name]
  }

  function Reported(path: string, names: seq<string>): seq<Unsupported> {
    seq(|names|, i requires 0 <= i < |names| => Unsupported(path, names[i]))
  }

  /** Inserts the first `n` of the members `names`, unchanged. */
  function Append(ms: seq<Member>, out: seq<Member>, names: seq<string>, n: nat): seq<Member>
    requires n <= |names|
  {
    if n == 0 then out
    else
      var i := IndexOf(ms, names[n - 1]);
      if i < |ms| then Insert(Append(ms, out, names, n - 1), names[n - 1], ms[i].node) else Append(ms, out, names, n - 1)
  }

  function SpecialNames(ms: seq<Member>, n: nat): seq<string>
    requires n <= |ms|
  {
    if n == 0 then [] else SpecialNames(ms, n - 1) + if Special(ms[n - 1].name) then [ms[n - 1].name] else []
  }

  lemma {:induction false} SpecialNamesHere(ms: seq<Member>, n: nat)
    requires n <= |ms|
    ensures forall k :: k in SpecialNames(ms, n) <==> Special(k) && exists i :: 0 <= i < n && ms[i].name == k
  {
    if n > 0 {
      SpecialNamesHere(ms, n - 1);
      hide Special;
    }
  }

  lemma {:induction false} UnknownHere(ms: seq<Member>, known: seq<Member>, n: nat)
    requires n <= |ms|
    ensures forall k :: k in Unknown(ms, known, n) <==>
                          !Has(known, k) && !Special(k) && exists i :: 0 <= i < n && ms[i].name == k
  {
    if n > 0 {
      UnknownHere(ms, known, n - 1);
      hide Special, Has;
    }
  }

  /** An element of the instance in schema order, and the members its content model does not provide for. */
  function OrderNode(c: Catalog, fuel: nat, v: Node, spec: ChildSpec, path: string): Result<(Node, seq<Unsupported>), OrderError>
    decreases v, 1
  {
    match v
    case Scalar(_) => Ok((v, []))
    case Items(items) =>
      (match OrderItems(c, fuel, v, spec, path, |items|)
       case Err(e) => Err(e)
       case Ok((out, reports)) => Ok((Items(out), reports)))
    case Members(ms) =>
      match ElementChildren(c, fuel, spec.name, spec.schema, spec.namespaces, {})
      case Err(e) => Err(e)
      case Ok(children) =>
        match OrderKnown(c, fuel, v, children, path, |children|)
        case Err(e) => Err(e)
        case Ok((known, reports)) =>
          match ContentAllowsAny(c, fuel, spec.name, spec.schema, spec.namespaces, {})
          case Err(e) => Err(e)
          case Ok(any) =>
            var unknown := Unknown(ms, known, |ms|);
            Ok((Members(WithRest(ms, known)), reports + if any then [] else Reported(path, unknown)))
  }

  /** The known members, then the unknown ones by name, then attributes and text in document order. */
  function WithRest(ms: seq<Member>, known: seq<Member>): seq<Member> {
    var unknown := SortNames(Unknown(ms, known, |ms|));
    var special := SpecialNames(ms, |ms|);
    Append(ms, Append(ms, known, unknown, |unknown|), special, |special|)
  }

  function OrderItems(c: Catalog, fuel: nat, v: Node, spec: ChildSpec, path: string, n: nat)
    : (r: Result<(seq<Node>, seq<Unsupported>), OrderError>)
    requires v.Items? && n <= |v.items|
    ensures r.Ok? ==> |r.value.0| == n
    decreases v, 0, n
  {
    if n == 0 then Ok(([], []))
    else
      match OrderItems(c, fuel, v, spec, path, n - 1)
      case Err(e) => Err(e)
      case Ok((before, reports)) =>
        match OrderNode(c, fuel, v.items[n - 1], spec, path)
        case Err(e) => Err(e)
        case Ok((out, more)) => Ok((before + [out], reports + more))
  }

  /** The members that the first `n` children of the content model name, in that order. */
  function OrderKnown(c: Catalog, fuel: nat, v: Node, children: seq<ChildSpec>, path: string, n: nat)
    : Result<(seq<Member>, seq<Unsupported>), OrderError>
    requires v.Members? && n <= |children|
    decreases v, 0, n
  {
    if n == 0 then Ok(([], []))
    else
      match OrderKnown(c, fuel, v, children, path, n - 1)
      case Err(e) => Err(e)
      case Ok((before, reports)) =>
        var key := children[n - 1].key;
        var i := IndexOf(v.members, key);
        if i == |v.members| then Ok((before, reports))
        else
          match OrderNode(c, fuel, v.members[i].node, children[n - 1], path + "/" + key)
          case Err(e) => Err(e)
          case Ok((out, more)) => Ok((Insert(before, key, out), reports + more))
  }

  // ---------- the meaning stays ----------

  lemma {:induction false} AppendFaithful(ms: seq<Member>, out: seq<Member>, names: seq<string>, n: nat)
    requires n <= |names| && Faithful(out, ms) && DistinctNames(ms)
    requires forall i :: 0 <= i < |ms| ==> Valid(ms[i].node)
    ensures Faithful(Append(ms, out, names, n), ms)
    ensures NamesOf(Append(ms, out, names, n)) == Extended(NamesOf(out), names[..n], ms)
  {
    if n > 0 {
      AppendFaithful(ms, out, names, n - 1);
      var before := Append(ms, out, names, n - 1);
      var i := IndexOf(ms, names[n - 1]);
      assert names[..n][..n - 1] == names[..n - 1];
      if i < |ms| {
        InsertFaithful(before, ms, names[n - 1], ms[i].node);
        InsertNames(before, names[n - 1], ms[i].node);
      }
    }
  }

  /** `names` after those of `more` that are members of `ms` have been inserted. */
  function Extended(names: seq<string>, more: seq<string>, ms: seq<Member>): seq<string> {
    if more == [] then names
    else
      var before := Extended(names, more[..|more| - 1], ms);
      if Has(ms, more[|more| - 1]) then Inserted(before, more[|more| - 1]) else before
  }

  lemma {:induction false} ExtendedHolds(names: seq<string>, more: seq<string>, ms: seq<Member>)
    ensures forall k :: k in Extended(names, more, ms) <==> k in names || (k in more && Has(ms, k))
  {
    if more != [] {
      ExtendedHolds(names, more[..|more| - 1], ms);
      assert more == more[..|more| - 1] + [more[|more| - 1]];
      hide Has;
    }
  }

  lemma NamesHave(ms: seq<Member>, k: string)
    ensures Has(ms, k) <==> k in NamesOf(ms)
    ensures Has(ms, k) <==> exists i :: 0 <= i < |ms| && ms[i].name == k
  {
    var i := IndexOf(ms, k);
    if i < |ms| {
      assert NamesOf(ms)[i] == k;
    }
  }

  /** Nothing is left out: every member is known, unknown or special. */
  lemma {:induction false} WithRestComplete(ms: seq<Member>, known: seq<Member>)
    requires DistinctNames(ms) && Faithful(known, ms)
    requires forall i :: 0 <= i < |ms| ==> Valid(ms[i].node)
    ensures Faithful(WithRest(ms, known), ms)
    ensures forall i :: 0 <= i < |ms| ==> Has(WithRest(ms, known), ms[i].name)
  {
    var unknown := SortNames(Unknown(ms, known, |ms|));
    var special := SpecialNames(ms, |ms|);
    var middle := Append(ms, known, unknown, |unknown|);
    assert unknown[..|unknown|] == unknown && special[..|special|] == special;
    AppendFaithful(ms, known, unknown, |unknown|);
    AppendFaithful(ms, middle, special, |special|);
    hide Append, Special, Faithful;
    forall i | 0 <= i < |ms|
      ensures Has(WithRest(ms, known), ms[i].name)
    {
      var k := ms[i].name;
      hide Has;
      NamesHave(ms, k);
      NamesHave(known, k);
      NamesHave(WithRest(ms, known), k);
      UnknownHere(ms, known, |ms|);
      SpecialNamesHere(ms, |ms|);
      SortNamesSorts(Unknown(ms, known, |ms|));
      ExtendedHolds(NamesOf(known), unknown, ms);
      ExtendedHolds(NamesOf(middle), special, ms);
    }
  }

  lemma {:induction false} MemberMeans(out: seq<Member>, ms: seq<Member>, k: string)
    requires Faithful(out, ms) && DistinctNames(ms) && (Has(ms, k) ==> Has(out, k))
    ensures k in EraseMembers(out) <==> k in EraseMembers(ms)
    ensures k in EraseMembers(out) ==> EraseMembers(out)[k] == EraseMembers(ms)[k]
  {
    hide Erase, EraseMembers, Valid;
    EraseNames(out);
    EraseNames(ms);
    NamesHave(out, k);
    NamesHave(ms, k);
    if Has(out, k) {
      var i := IndexOf(out, k);
      assert Means(out[i], ms);
      EraseAt(out, i);
      EraseAt(ms, IndexOf(ms, k));
    }
  }

  lemma {:induction false} FaithfulMeans(out: seq<Member>, ms: seq<Member>)
    requires Faithful(out, ms) && DistinctNames(ms) && forall i :: 0 <= i < |ms| ==> Has(out, ms[i].name)
    ensures EraseMembers(out) == EraseMembers(ms) && Valid(Members(out))
  {
    assert forall i :: 0 <= i < |out| ==> Means(out[i], ms);
    forall k
      ensures k in EraseMembers(out) <==> k in EraseMembers(ms)
      ensures k in EraseMembers(out) ==> EraseMembers(out)[k] == EraseMembers(ms)[k]
    {
      NamesHave(ms, k);
      MemberMeans(out, ms, k);
    }
    hide EraseMembers, Erase;
  }

  /** Ordering changes nothing but member order, at every depth. */
  lemma {:induction false} OrderKeepsMeaning(c: Catalog, fuel: nat, v: Node, spec: ChildSpec, path: string)
    requires Valid(v) && OrderNode(c, fuel, v, spec, path).Ok?
    ensures Valid(OrderNode(c, fuel, v, spec, path).value.0)
    ensures Erase(OrderNode(c, fuel, v, spec, path).value.0) == Erase(v)
    decreases v, 1
  {
    match v
    case Scalar(_) =>
    case Items(items) => ItemsKeepMeaning(c, fuel, v, spec, path, |items|);
    case Members(ms) =>
      var children := ElementChildren(c, fuel, spec.name, spec.schema, spec.namespaces, {}).value;
      KnownFaithful(c, fuel, v, children, path, |children|);
      var known := OrderKnown(c, fuel, v, children, path, |children|).value.0;
      hide ElementChildren, ContentAllowsAny, OrderKnown, Faithful;
      WithRestComplete(ms, known);
      FaithfulMeans(WithRest(ms, known), ms);
  }

  lemma {:induction false} ItemsKeepMeaning(c: Catalog, fuel: nat, v: Node, spec: ChildSpec, path: string, n: nat)
    requires v.Items? && Valid(v) && n <= |v.items| && OrderItems(c, fuel, v, spec, path, n).Ok?
    ensures var out := OrderItems(c, fuel, v, spec, path, n).value.0;
            forall i :: 0 <= i < n ==> Valid(out[i]) && Erase(out[i]) == Erase(v.items[i])
    decreases v, 0, n
  {
    if n > 0 {
      ItemsKeepMeaning(c, fuel, v, spec, path, n - 1);
      OrderKeepsMeaning(c, fuel, v.items[n - 1], spec, path);
      hide OrderNode, Erase;
    }
  }

  lemma {:induction false} KnownFaithful(c: Catalog, fuel: nat, v: Node, children: seq<ChildSpec>, path: string, n: nat)
    requires v.Members? && Valid(v) && n <= |children| && OrderKnown(c, fuel, v, children, path, n).Ok?
    ensures Faithful(OrderKnown(c, fuel, v, children, path, n).value.0, v.members)
    ensures NamesOf(OrderKnown(c, fuel, v, children, path, n).value.0)
            == Extended([], KeysOf(children)[..n], v.members)
    decreases v, 0, n
  {
    if n > 0 {
      KnownFaithful(c, fuel, v, children, path, n - 1);
      var key := children[n - 1].key;
      var i := IndexOf(v.members, key);
      assert KeysOf(children)[..n][..n - 1] == KeysOf(children)[..n - 1];
      if i < |v.members| {
        OrderKeepsMeaning(c, fuel, v.members[i].node, children[n - 1], path + "/" + key);
        hide OrderNode, Erase;
        var before := OrderKnown(c, fuel, v, children, path, n - 1).value.0;
        var out := OrderNode(c, fuel, v.members[i].node, children[n - 1], path + "/" + key).value.0;
        InsertFaithful(before, v.members, key, out);
        InsertNames(before, key, out);
      }
    }
  }

  function KeysOf(children: seq<ChildSpec>): seq<string> {
    seq(|children|, i requires 0 <= i < |children| => children[i].key)
  }

  // ---------- the order ----------

  function Present(names: seq<string>, ms: seq<Member>): seq<string> {
    if names == [] then []
    else
      Present(names[..|names| - 1], ms) +
      if Has(ms, names[|names| - 1]) then [names[|names| - 1]] else []
  }

  lemma {:induction false} ExtendedIs(before: seq<string>, more: seq<string>, ms: seq<Member>)
    ensures Extended(FirstOccurrences(before), more, ms) == FirstOccurrences(before + Present(more, ms))
  {
    if more == [] {
      assert before + Present(more, ms) == before;
    } else {
      var rest := more[..|more| - 1];
      var last := more[|more| - 1];
      ExtendedIs(before, rest, ms);
      if Has(ms, last) {
        var all := before + Present(more, ms);
        assert all[..|all| - 1] == before + Present(rest, ms) && all[|all| - 1] == last;
      } else {
        assert Present(more, ms) == Present(rest, ms);
      }
    }
  }

  /** The names among the first `n` that are neither in the content model nor attributes or text. */
  function UnknownNames(ms: seq<Member>, keys: seq<string>, n: nat): seq<string>
    requires n <= |ms|
  {
    if n == 0 then []
    else
      UnknownNames(ms, keys, n - 1) +
      if ms[n - 1].name in keys || Special(ms[n - 1].name) then [] else [ms[n - 1].name]
  }

  lemma {:induction false} UnknownAre(ms: seq<Member>, known: seq<Member>, keys: seq<string>, n: nat)
    requires n <= |ms| && NamesOf(known) == Extended([], keys, ms)
    ensures Unknown(ms, known, n) == UnknownNames(ms, keys, n)
  {
    if n > 0 {
      UnknownAre(ms, known, keys, n - 1);
      ExtendedHolds([], keys, ms);
      NamesHave(known, ms[n - 1].name);
      NamesHave(ms, ms[n - 1].name);
      hide Has, Special, Extended;
    }
  }

  lemma {:induction false} AllPresent(ms: seq<Member>, names: seq<string>)
    requires forall k :: k in names ==> Has(ms, k)
    ensures Present(names, ms) == names
  {
    if names != [] {
      assert names == names[..|names| - 1] + [names[|names| - 1]];
      AllPresent(ms, names[..|names| - 1]);
    }
  }

  lemma {:induction false} RestNames(ms: seq<Member>, known: seq<Member>, keys: seq<string>)
    requires DistinctNames(ms) && Faithful(known, ms) && NamesOf(known) == Extended([], keys, ms)
    requires forall i :: 0 <= i < |ms| ==> Valid(ms[i].node)
    ensures NamesOf(WithRest(ms, known)) ==
            FirstOccurrences(Present(keys, ms) + SortNames(UnknownNames(ms, keys, |ms|)) + SpecialNames(ms, |ms|))
  {
    hide Special, Has, Faithful;
    UnknownAre(ms, known, keys, |ms|);
    var unknown := SortNames(Unknown(ms, known, |ms|));
    var special := SpecialNames(ms, |ms|);
    AppendFaithful(ms, known, unknown, |unknown|);
    AppendFaithful(ms, Append(ms, known, unknown, |unknown|), special, |special|);
    assert unknown[..|unknown|] == unknown && special[..|special|] == special;
    RestPresent(ms, known);
    ExtendedIs([], keys, ms);
    assert [] + Present(keys, ms) == Present(keys, ms);
    ExtendedIs(Present(keys, ms), unknown, ms);
    ExtendedIs(Present(keys, ms) + unknown, special, ms);
  }

  lemma RestPresent(ms: seq<Member>, known: seq<Member>)
    ensures Present(SortNames(Unknown(ms, known, |ms|)), ms) == SortNames(Unknown(ms, known, |ms|))
    ensures Present(SpecialNames(ms, |ms|), ms) == SpecialNames(ms, |ms|)
  {
    UnknownHere(ms, known, |ms|);
    SpecialNamesHere(ms, |ms|);
    SortNamesSorts(Unknown(ms, known, |ms|));
    forall k | k in SortNames(Unknown(ms, known, |ms|)) || k in SpecialNames(ms, |ms|)
      ensures Has(ms, k)
    {
      NamesHave(ms, k);
    }
    AllPresent(ms, SortNames(Unknown(ms, known, |ms|)));
    AllPresent(ms, SpecialNames(ms, |ms|));
  }

  /**
   * The members of an ordered object: the known ones by their first occurrence in the flattened content
   * model, then those it does not know by name, then attributes and text as they stood.
   */
  lemma {:induction false} OrderOfMembers(c: Catalog, fuel: nat, v: Node, spec: ChildSpec, path: string)
    requires Valid(v) && v.Members? && OrderNode(c, fuel, v, spec, path).Ok?
    ensures var children := ElementChildren(c, fuel, spec.name, spec.schema, spec.namespaces, {});
            var out := OrderNode(c, fuel, v, spec, path).value.0;
            var ms := v.members;
            && children.Ok? && out.Members?
            && NamesOf(out.members) ==
                 FirstOccurrences(Present(KeysOf(children.value), ms) +
                                  SortNames(UnknownNames(ms, KeysOf(children.value), |ms|)) +
                                  SpecialNames(ms, |ms|))
            && SortedNames(SortNames(UnknownNames(ms, KeysOf(children.value), |ms|)))
  {
    var children := ElementChildren(c, fuel, spec.name, spec.schema, spec.namespaces, {}).value;
    KnownFaithful(c, fuel, v, children, path, |children|);
    assert KeysOf(children)[..|children|] == KeysOf(children);
    var known := OrderKnown(c, fuel, v, children, path, |children|).value.0;
    SortNamesSorts(UnknownNames(v.members, KeysOf(children), |v.members|));
    hide ElementChildren, ContentAllowsAny, OrderKnown, Faithful, WithRest;
    RestNames(v.members, known, KeysOf(children));
  }

  function Position(names: seq<string>, name: string): (i: nat)
    requires name in names
    ensures i < |names| && names[i] == name && name !in names[..i]
  {
    if names[0] == name then 0
    else
      assert names == [names[0]] + names[1..];
      var i := Position(names[1..], name);
      assert names[..i + 1] == [names[0]] + names[1..][..i];
      i + 1
  }

  lemma PositionIs(names: seq<string>, name: string, i: nat)
    requires i < |names| && names[i] == name && name !in names[..i]
    ensures Position(names, name) == i
  {
    var p := Position(names, name);
    assert forall j :: 0 <= j < i ==> names[j] in names[..i];
    assert forall j :: 0 <= j < p ==> names[j] in names[..p];
  }

  lemma PositionInLonger(names: seq<string>, more: seq<string>, name: string)
    requires name in names
    ensures Position(names + more, name) == Position(names, name)
  {
    var p := Position(names, name);
    assert (names + more)[..p] == names[..p];
    PositionIs(names + more, name, p);
  }

  /** Dropping repetitions keeps every name, and any two in the order of their first occurrences. */
  lemma {:induction false} FirstOccurrenceOrder(names: seq<string>, a: string, b: string)
    requires a in names && b in names
    ensures a in FirstOccurrences(names) && b in FirstOccurrences(names)
    ensures Position(FirstOccurrences(names), a) < Position(FirstOccurrences(names), b) <==>
            Position(names, a) < Position(names, b)
  {
    var rest := names[..|names| - 1];
    var last := names[|names| - 1];
    assert names == rest + [last];
    FirstOccurrencesHold(rest);
    var out := FirstOccurrences(rest);
    if last in rest {
      FirstOccurrenceOrder(rest, a, b);
      PositionInLonger(rest, [last], a);
      PositionInLonger(rest, [last], b);
    } else {
      assert names[..|rest|] == rest;
      PositionIs(names, last, |rest|);
      assert (out + [last])[..|out|] == out;
      PositionIs(out + [last], last, |out|);
      if a != last && b != last {
        FirstOccurrenceOrder(rest, a, b);
      }
      if a != last {
        PositionInLonger(rest, [last], a);
        PositionInLonger(out, [last], a);
      }
      if b != last {
        PositionInLonger(rest, [last], b);
        PositionInLonger(out, [last], b);
      }
    }
  }

  lemma {:induction false} FirstOccurrencesHold(names: seq<string>)
    ensures forall k :: k in FirstOccurrences(names) <==> k in names
  {
    if names != [] {
      FirstOccurrencesHold(names[..|names| - 1]);
      assert names == names[..|names| - 1] + [names[|names| - 1]];
    }
  }

  // ---------- every depth ----------

  lemma {:induction false} InsertNode(ms: seq<Member>, name: string, node: Node, k: string)
    requires DistinctNames(ms)
    ensures Has(Insert(ms, name, node), k) <==> Has(ms, k) || k == name
    ensures var now := Insert(ms, name, node);
            Has(now, k) ==> now[IndexOf(now, k)].node == if k == name then node else
                              if Has(ms, k) then ms[IndexOf(ms, k)].node else Scalar(Null)
  {
    InsertNames(ms, name, node);
    NamesHave(ms, k);
    var now := Insert(ms, name, node);
    NamesHave(now, k);
    if Has(now, k) {
      var j := IndexOf(now, k);
      assert now[j].name == k;
      if k != name && Has(ms, k) {
        assert now[IndexOf(ms, k)] == ms[IndexOf(ms, k)];
        assert IndexOf(ms, k) == j;
      }
    }
  }

  ghost predicate Orders(c: Catalog, fuel: nat, spec: ChildSpec, path: string, input: Node, output: Node) {
    var r := OrderNode(c, fuel, input, spec, path);
    r.Ok? && r.value.0 == output
  }

  /** `input` became `output` by the last child of key `k` among the first `n`. */
  ghost predicate OrderedBy(c: Catalog, fuel: nat, children: seq<ChildSpec>, path: string, n: nat, input: Node, output: Node,
                            k: string)
    requires n <= |children|
  {
    exists i :: 0 <= i < n && children[i].key == k && Orders(c, fuel, children[i], path + "/" + k, input, output) &&
                forall j :: i < j < n ==> children[j].key != k
  }

  lemma KnownStep(c: Catalog, fuel: nat, v: Node, children: seq<ChildSpec>, path: string, n: nat, k: string)
    requires v.Members? && Valid(v) && 0 < n <= |children| && OrderKnown(c, fuel, v, children, path, n).Ok?
    requires Has(v.members, k)
    ensures OrderKnown(c, fuel, v, children, path, n - 1).Ok?
    ensures var before := OrderKnown(c, fuel, v, children, path, n - 1).value.0;
            var known := OrderKnown(c, fuel, v, children, path, n).value.0;
            if children[n - 1].key == k then
              Has(known, k) &&
              Orders(c, fuel, children[n - 1], path + "/" + k, v.members[IndexOf(v.members, k)].node, known[IndexOf(known, k)].node)
            else Has(before, k) ==> Has(known, k) && known[IndexOf(known, k)].node == before[IndexOf(before, k)].node
  {
    var key := children[n - 1].key;
    KnownFaithful(c, fuel, v, children, path, n - 1);
    var before := OrderKnown(c, fuel, v, children, path, n - 1).value.0;
    if Has(v.members, key) {
      var r := OrderNode(c, fuel, v.members[IndexOf(v.members, key)].node, children[n - 1], path + "/" + key);
      hide OrderNode, Erase;
      InsertNode(before, key, r.value.0, k);
    }
  }

  lemma OrderedByLonger(c: Catalog, fuel: nat, children: seq<ChildSpec>, path: string, n: nat, input: Node, output: Node,
                        k: string)
    requires 0 < n <= |children|
    ensures children[n - 1].key == k && Orders(c, fuel, children[n - 1], path + "/" + k, input, output) ==>
              OrderedBy(c, fuel, children, path, n, input, output, k)
    ensures children[n - 1].key != k && OrderedBy(c, fuel, children, path, n - 1, input, output, k) ==>
              OrderedBy(c, fuel, children, path, n, input, output, k)
  {
    hide Orders;
    if children[n - 1].key != k && OrderedBy(c, fuel, children, path, n - 1, input, output, k) {
      var i :| 0 <= i < n - 1 && children[i].key == k && Orders(c, fuel, children[i], path + "/" + k, input, output) &&
               forall j :: i < j < n - 1 ==> children[j].key != k;
      assert forall j :: i < j < n ==> children[j].key != k;
    }
  }

  lemma {:induction false} KnownOrdered(c: Catalog, fuel: nat, v: Node, children: seq<ChildSpec>, path: string, n: nat, k: string)
    requires v.Members? && Valid(v) && n <= |children| && OrderKnown(c, fuel, v, children, path, n).Ok?
    requires Has(v.members, k) && exists i :: 0 <= i < n && children[i].key == k
    ensures var known := OrderKnown(c, fuel, v, children, path, n).value.0;
            && Has(known, k)
            && OrderedBy(c, fuel, children, path, n, v.members[IndexOf(v.members, k)].node, known[IndexOf(known, k)].node, k)
  {
    hide Orders, OrderKnown, OrderedBy, IndexOf, Valid;
    KnownStep(c, fuel, v, children, path, n, k);
    if children[n - 1].key != k {
      KnownOrdered(c, fuel, v, children, path, n - 1, k);
    }
    var known := OrderKnown(c, fuel, v, children, path, n).value.0;
    OrderedByLonger(c, fuel, children, path, n, v.members[IndexOf(v.members, k)].node, known[IndexOf(known, k)].node, k);
  }

  lemma {:induction false} AppendNode(ms: seq<Member>, out: seq<Member>, names: seq<string>, n: nat, k: string)
    requires n <= |names| && Faithful(out, ms) && DistinctNames(ms) && Has(ms, k)
    requires forall i :: 0 <= i < |ms| ==> Valid(ms[i].node)
    ensures var now := Append(ms, out, names, n);
            && (k in names[..n] ==> Has(now, k) && now[IndexOf(now, k)].node == ms[IndexOf(ms, k)].node)
            && (k !in names[..n] ==>
                  (Has(now, k) <==> Has(out, k)) &&
                  (Has(out, k) ==> now[IndexOf(now, k)].node == out[IndexOf(out, k)].node))
  {
    hide IndexOf, Valid, Means;
    if n > 0 {
      AppendNode(ms, out, names, n - 1, k);
      AppendFaithful(ms, out, names, n - 1);
      assert names[..n] == names[..n - 1] + [names[n - 1]];
      var before := Append(ms, out, names, n - 1);
      var i := IndexOf(ms, names[n - 1]);
      if i < |ms| {
        InsertNode(before, names[n - 1], ms[i].node, k);
      }
    }
  }

  lemma {:induction false} RestNode(ms: seq<Member>, known: seq<Member>, k: string)
    requires Faithful(known, ms) && DistinctNames(ms) && Has(ms, k)
    requires forall i :: 0 <= i < |ms| ==> Valid(ms[i].node)
    ensures var out := WithRest(ms, known);
            && Has(out, k)
            && out[IndexOf(out, k)].node == if Has(known, k) && !Special(k) then known[IndexOf(known, k)].node
                                            else ms[IndexOf(ms, k)].node
  {
    var unknown := SortNames(Unknown(ms, known, |ms|));
    var special := SpecialNames(ms, |ms|);
    assert unknown[..|unknown|] == unknown && special[..|special|] == special;
    AppendFaithful(ms, known, unknown, |unknown|);
    AppendNode(ms, known, unknown, |unknown|, k);
    AppendNode(ms, Append(ms, known, unknown, |unknown|), special, |special|, k);
    NamesHave(ms, k);
    UnknownHere(ms, known, |ms|);
    SpecialNamesHere(ms, |ms|);
    SortNamesSorts(Unknown(ms, known, |ms|));
    hide Append, Special, Faithful, Has, IndexOf, Unknown, SpecialNames, SortNames;
  }

  /** So order holds at every depth: what the model provides for is ordered in turn, the rest is unchanged. */
  lemma {:induction false} OrderGoesDeep(c: Catalog, fuel: nat, v: Node, spec: ChildSpec, path: string, k: string)
    requires Valid(v) && v.Members? && OrderNode(c, fuel, v, spec, path).Ok? && Has(v.members, k)
    ensures var children := ElementChildren(c, fuel, spec.name, spec.schema, spec.namespaces, {}).value;
            var out := OrderNode(c, fuel, v, spec, path).value.0;
            var input := v.members[IndexOf(v.members, k)].node;
            && out.Members? && Has(out.members, k)
            && var output := out.members[IndexOf(out.members, k)].node;
               if k in KeysOf(children) && !Special(k) then
                 OrderedBy(c, fuel, children, path, |children|, input, output, k)
               else output == input
  {
    var children := ElementChildren(c, fuel, spec.name, spec.schema, spec.namespaces, {}).value;
    var known := OrderKnown(c, fuel, v, children, path, |children|).value.0;
    KnownFaithful(c, fuel, v, children, path, |children|);
    if k in KeysOf(children) {
      var i :| 0 <= i < |children| && KeysOf(children)[i] == k;
      KnownOrdered(c, fuel, v, children, path, |children|, k);
    } else {
      assert KeysOf(children)[..|children|] == KeysOf(children);
      ExtendedHolds([], KeysOf(children), v.members);
      NamesHave(known, k);
    }
    hide ElementChildren, ContentAllowsAny, OrderKnown, Faithful, WithRest, OrderedBy, Special, Has, IndexOf, Extended;
    RestNode(v.members, known, k);
  }

  // ---------- a whole document ----------

  function Candidates(c: Catalog, root: string): set<QName> {
    set q | q in c.elements && q.local == root
  }

  /** A document has one root member, which exactly one schema element must describe. */
  ghost function OrderDocument(c: Catalog, fuel: nat, document: Node): Result<(Node, seq<Unsupported>), OrderError> {
    if !document.Members? || |document.members| != 1 then Err(SchemaMissing)
    else
      var root := document.members[0];
      if |Candidates(c, root.name)| != 1 then Err(SchemaMissing)
      else
        var q :| q in Candidates(c, root.name);
        match OrderNode(c, fuel, root.node, ChildSpec(root.name, q, c.elements[q].node, c.elements[q].namespaces), root.name)
        case Err(e) => Err(e)
        case Ok((out, reports)) => Ok((Members([Member(root.name, out)]), reports))
  }

  lemma {:induction false} OrderDocumentKeepsMeaning(c: Catalog, fuel: nat, document: Node)
    requires Valid(document) && OrderDocument(c, fuel, document).Ok?
    ensures Valid(OrderDocument(c, fuel, document).value.0)
    ensures Erase(OrderDocument(c, fuel, document).value.0) == Erase(document)
  {
    var root := document.members[0];
    var q :| q in Candidates(c, root.name) &&
             OrderDocument(c, fuel, document) ==
               match OrderNode(c, fuel, root.node, ChildSpec(root.name, q, c.elements[q].node, c.elements[q].namespaces), root.name)
               case Err(e) => Err(e)
               case Ok((out, reports)) => Ok((Members([Member(root.name, out)]), reports));
    var spec := ChildSpec(root.name, q, c.elements[q].node, c.elements[q].namespaces);
    OrderKeepsMeaning(c, fuel, root.node, spec, root.name);
    var out := OrderNode(c, fuel, root.node, spec, root.name).value.0;
    hide OrderNode, OrderDocument;
    assert document == Members([root]);
    EraseSingle(root);
    EraseSingle(Member(root.name, out));
  }

  // ---------- the orderer at work ----------

  class OrderingDiagnostics {
    var unsupportedElements: seq<Unsupported>
    var unsupportedElementCount: nat
    ghost var all: seq<Unsupported>

    /** The list holds the first 200 of everything recorded; the count is not capped. */
    ghost predicate Valid()
      reads this
    {
      unsupportedElementCount == |all| &&
      unsupportedElements == all[..if |all| < 200 then |all| else 200]
    }

    constructor ()
      ensures Valid() && all == []
    {
      unsupportedElements := [];
      unsupportedElementCount := 0;
      all := [];
    }

    method Record(path: string, element: string)
      requires Valid()
      modifies this
      ensures Valid() && all == old(all) + [Unsupported(path, element)]
    {
      unsupportedElementCount := unsupportedElementCount + 1;
      if |unsupportedElements| < MAX_REPORTED_UNSUPPORTED_ELEMENTS {
        unsupportedElements := unsupportedElements + [Unsupported(path, element)];
      }
      all := all + [Unsupported(path, element)];
    }

    /** Whether the list says less than the count. */
    method Truncated() returns (r: bool)
      requires Valid()
      ensures r <==> |all| > 200
    {
      r := unsupportedElementCount > |unsupportedElements|;
    }
  }

  lemma {:induction false} ItemsFail(c: Catalog, fuel: nat, v: Node, spec: ChildSpec, path: string, n: nat, m: nat)
    requires v.Items? && n <= m <= |v.items| && OrderItems(c, fuel, v, spec, path, n).Err?
    ensures OrderItems(c, fuel, v, spec, path, m) == Err(OrderItems(c, fuel, v, spec, path, n).error)
  {
    if n < m {
      ItemsFail(c, fuel, v, spec, path, n, m - 1);
    }
  }

  lemma {:induction false} KnownFails(c: Catalog, fuel: nat, v: Node, children: seq<ChildSpec>, path: string, n: nat, m: nat)
    requires v.Members? && n <= m <= |children| && OrderKnown(c, fuel, v, children, path, n).Err?
    ensures OrderKnown(c, fuel, v, children, path, m) == Err(OrderKnown(c, fuel, v, children, path, n).error)
  {
    if n < m {
      KnownFails(c, fuel, v, children, path, n, m - 1);
    }
  }

  /** Orders one element, recording the members without a place as it goes. */
  method OrderElement(c: Catalog, fuel: nat, v: Node, spec: ChildSpec, path: string, diagnostics: OrderingDiagnostics)
    returns (r: Result<Node, OrderError>)
    requires diagnostics.Valid() && Valid(v)
    modifies diagnostics
    ensures diagnostics.Valid()
    ensures match OrderNode(c, fuel, v, spec, path)
            case Err(e) => r == Err(e)
            case Ok((out, reports)) => r == Ok(out) && diagnostics.all == old(diagnostics.all) + reports
    decreases v, 1
  {
    hide ElementChildren, ContentAllowsAny, OrderItems, OrderKnown, Append, Unknown, SortNames, SpecialNames,
      OrderingDiagnostics.Valid;
    match v
    case Scalar(_) => r := Ok(v);
    case Items(_) => r := OrderEach(c, fuel, v, spec, path, diagnostics);
    case Members(ms) =>
      var children := ElementChildren(c, fuel, spec.name, spec.schema, spec.namespaces, {});
      if children.Err? {
        return Err(children.error);
      }
      var ordered := OrderChildren(c, fuel, v, children.value, path, diagnostics);
      if ordered.Err? {
        return Err(ordered.error);
      }
      var any := ContentAllowsAny(c, fuel, spec.name, spec.schema, spec.namespaces, {});
      if any.Err? {
        return Err(any.error);
      }
      var remaining := Remaining(ms, ordered.value, any.value, path, diagnostics);
      var known := AppendNamed(ms, ordered.value, SortNames(remaining));
      var all := AppendSpecial(ms, known);
      r := Ok(Members(all));
  }

  lemma {:induction false} OnlyCandidate(s: set<QName>, a: QName, b: QName)
    requires |s| == 1 && a in s && b in s
    ensures a == b
  {
    assert |s - {a}| == 0;
    assert b !in s - {a};
  }

  /** Orders a document after the one schema element that describes its root. */
  method OrderDocumentReporting(c: Catalog, fuel: nat, document: Node, diagnostics: OrderingDiagnostics)
    returns (r: Result<Node, OrderError>)
    requires diagnostics.Valid() && Valid(document)
    modifies diagnostics
    ensures diagnostics.Valid()
    ensures match OrderDocument(c, fuel, document)
            case Err(e) => r == Err(e)
            case Ok((out, reports)) => r == Ok(out) && diagnostics.all == old(diagnostics.all) + reports
  {
    hide OrderNode, OrderingDiagnostics.Valid;
    if !document.Members? || |document.members| != 1 {
      return Err(SchemaMissing);
    }
    var root := document.members[0];
    var candidates := Candidates(c, root.name);
    if |candidates| != 1 {
      return Err(SchemaMissing);
    }
    var q :| q in candidates;
    forall other | other in candidates
      ensures other == q
    {
      OnlyCandidate(candidates, q, other);
    }
    var spec := ChildSpec(root.name, q, c.elements[q].node, c.elements[q].namespaces);
    var ordered := OrderElement(c, fuel, root.node, spec, root.name, diagnostics);
    if ordered.Err? {
      return Err(ordered.error);
    }
    r := Ok(Members([Member(root.name, ordered.value)]));
  }

  method OrderEach(c: Catalog, fuel: nat, v: Node, spec: ChildSpec, path: string, diagnostics: OrderingDiagnostics)
    returns (r: Result<Node, OrderError>)
    requires diagnostics.Valid() && v.Items? && Valid(v)
    modifies diagnostics
    ensures diagnostics.Valid()
    ensures match OrderItems(c, fuel, v, spec, path, |v.items|)
            case Err(e) => r == Err(e)
            case Ok((out, reports)) => r == Ok(Items(out)) && diagnostics.all == old(diagnostics.all) + reports
    decreases v, 0
  {
    hide OrderNode, OrderingDiagnostics.Valid;
    ghost var start := diagnostics.all;
    var items: seq<Node> := [];
    for i := 0 to |v.items|
      invariant diagnostics.Valid()
      invariant OrderItems(c, fuel, v, spec, path, i).Ok?
      invariant var (out, reports) := OrderItems(c, fuel, v, spec, path, i).value;
                items == out && diagnostics.all == start + reports
    {
      var item := OrderElement(c, fuel, v.items[i], spec, path, diagnostics);
      if item.Err? {
        ItemsFail(c, fuel, v, spec, path, i + 1, |v.items|);
        return Err(item.error);
      }
      items := items + [item.value];
    }
    r := Ok(Items(items));
  }

  method OrderChildren(c: Catalog, fuel: nat, v: Node, children: seq<ChildSpec>, path: string, diagnostics: OrderingDiagnostics)
    returns (r: Result<seq<Member>, OrderError>)
    requires diagnostics.Valid() && v.Members? && Valid(v)
    modifies diagnostics
    ensures diagnostics.Valid()
    ensures match OrderKnown(c, fuel, v, children, path, |children|)
            case Err(e) => r == Err(e)
            case Ok((out, reports)) => r == Ok(out) && diagnostics.all == old(diagnostics.all) + reports
    decreases v, 0
  {
    hide OrderNode, Insert, IndexOf, DistinctNames, OrderingDiagnostics.Valid;
    ghost var start := diagnostics.all;
    var ordered: seq<Member> := [];
    for n := 0 to |children|
      invariant diagnostics.Valid()
      invariant OrderKnown(c, fuel, v, children, path, n).Ok?
      invariant var (out, reports) := OrderKnown(c, fuel, v, children, path, n).value;
                ordered == out && diagnostics.all == start + reports
    {
      var key := children[n].key;
      var i := IndexOf(v.members, key);
      if i < |v.members| {
        var child := OrderElement(c, fuel, v.members[i].node, children[n], path + "/" + key, diagnostics);
        if child.Err? {
          KnownFails(c, fuel, v, children, path, n + 1, |children|);
          return Err(child.error);
        }
        ordered := Insert(ordered, key, child.value);
      }
    }
    r := Ok(ordered);
  }

  /** Collects the members left over and records them unless the content model has a wildcard. */
  method Remaining(ms: seq<Member>, ordered: seq<Member>, any: bool, path: string, diagnostics: OrderingDiagnostics)
    returns (remaining: seq<string>)
    requires diagnostics.Valid()
    modifies diagnostics
    ensures diagnostics.Valid() && remaining == Unknown(ms, ordered, |ms|)
    ensures diagnostics.all == old(diagnostics.all) + if any then [] else Reported(path, remaining)
  {
    ghost var start := diagnostics.all;
    remaining := [];
    for n := 0 to |ms|
      invariant diagnostics.Valid() && remaining == Unknown(ms, ordered, n)
      invariant diagnostics.all == start + if any then [] else Reported(path, remaining)
    {
      hide Special, Has, OrderingDiagnostics.Valid;
      var name := ms[n].name;
      if !Has(ordered, name) && !Special(name) {
        remaining := remaining + [name];
        if !any {
          diagnostics.Record(path, name);
        }
      }
    }
  }

  method AppendNamed(ms: seq<Member>, out: seq<Member>, names: seq<string>) returns (now: seq<Member>)
    ensures now == Append(ms, out, names, |names|)
  {
    now := out;
    for n := 0 to |names|
      invariant now == Append(ms, out, names, n)
    {
      var i := IndexOf(ms, names[n]);
      if i < |ms| {
        now := Insert(now, names[n], ms[i].node);
      }
    }
  }

  method AppendSpecial(ms: seq<Member>, out: seq<Member>) returns (now: seq<Member>)
    requires DistinctNames(ms)
    ensures now == Append(ms, out, SpecialNames(ms, |ms|), |SpecialNames(ms, |ms|)|)
  {
    hide Append, SpecialNames, Special, Insert;
    now := out;
    SpecialStart(ms, out);
    for n := 0 to |ms|
      invariant now == Append(ms, out, SpecialNames(ms, n), |SpecialNames(ms, n)|)
    {
      SpecialStep(ms, out, n);
      if Special(ms[n].name) {
        now := Insert(now, ms[n].name, ms[n].node);
      }
    }
  }

  lemma SpecialStart(ms: seq<Member>, out: seq<Member>)
    ensures Append(ms, out, SpecialNames(ms, 0), |SpecialNames(ms, 0)|) == out
  {
  }

  lemma {:induction false} SpecialStep(ms: seq<Member>, out: seq<Member>, n: nat)
    requires DistinctNames(ms) && n < |ms|
    ensures var before := Append(ms, out, SpecialNames(ms, n), |SpecialNames(ms, n)|);
            Append(ms, out, SpecialNames(ms, n + 1), |SpecialNames(ms, n + 1)|) ==
              if Special(ms[n].name) then Insert(before, ms[n].name, ms[n].node) else before
  {
    hide Special, Insert;
    assert IndexOf(ms, ms[n].name) == n;
    if Special(ms[n].name) {
      AppendPrefix(ms, out, SpecialNames(ms, n), ms[n].name, |SpecialNames(ms, n)|);
    } else {
      assert SpecialNames(ms, n + 1) == SpecialNames(ms, n);
    }
  }

  lemma {:induction false} AppendPrefix(ms: seq<Member>, out: seq<Member>, names: seq<string>, name: string, n: nat)
    requires n <= |names|
    ensures Append(ms, out, names + [name], n) == Append(ms, out, names, n)
  {
    if n > 0 {
      AppendPrefix(ms, out, names, name, n - 1);
    }
  }
}
