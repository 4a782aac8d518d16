/** Which of two members of an ordered object comes first, and which members are reported. */
module MemberOrder {
  import opened Json
  import opened OrderedJson
  import opened TextOrder
  import opened Ordering

  lemma {:induction false} PresentHolds(names: seq<string>, ms: seq<Member>)
    ensures forall k :: k in Present(names, ms) <==> k in names && Has(ms, k)
  {
    if names != [] {
      PresentHolds(names[..|names| - 1], ms);
      assert names == names[..|names| - 1] + [names[|names| - 1]];
      hide Has;
    }
  }

  /** Leaving out names keeps the order of the others. */
  lemma {:induction false} PresentOrder(names: seq<string>, ms: seq<Member>, a: string, b: string)
    requires a in names && b in names && Has(ms, a) && Has(ms, b)
    ensures a in Present(names, ms) && b in Present(names, ms)
    ensures Position(Present(names, ms), a) < Position(Present(names, ms), b) <==> Position(names, a) < Position(names, b)
  {
    var rest, last := names[..|names| - 1], names[|names| - 1];
    var out, more := Present(rest, ms), if Has(ms, last) then [last] else [];
    assert names == rest + [last];
    PresentHolds(names, ms);
    PresentHolds(rest, ms);
    hide Has;
    assert Present(names, ms) == out + more;
    if a in rest && b in rest {
      PresentOrder(rest, ms, a, b);
      PositionInLonger(rest, [last], a);
      PositionInLonger(rest, [last], b);
      PositionInLonger(out, more, a);
      PositionInLonger(out, more, b);
    } else {
      OneIsLast(rest, last, a, b);
      OneIsLast(out, last, a, b);
    }
  }

  /** A name that comes last comes after all others. */
  lemma OneIsLast(rest: seq<string>, last: string, a: string, b: string)
    requires a in rest + [last] && b in rest + [last] && !(a in rest && b in rest)
    ensures Position(rest + [last], a) < Position(rest + [last], b) <==> a in rest && b == last
  {
    var all := rest + [last];
    assert all[..|rest|] == rest;
    if last !in rest {
      PositionIs(all, last, |rest|);
    }
    if a in rest {
      PositionInLonger(rest, [last], a);
    }
    if b in rest {
      PositionInLonger(rest, [last], b);
    }
  }

  lemma {:induction false} UnknownNamesHere(ms: seq<Member>, keys: seq<string>, n: nat)
    requires n <= |ms|
    ensures forall k :: k in UnknownNames(ms, keys, n) <==>
                          k !in keys && !Special(k) && exists i :: 0 <= i < n && ms[i].name == k
  {
    if n > 0 {
      UnknownNamesHere(ms, keys, n - 1);
      hide Special;
    }
  }

  lemma EarlierIndex(ms: seq<Member>, n: nat, names: seq<string>, a: string)
    requires DistinctNames(ms) && n < |ms|
    requires a in names ==> exists i :: 0 <= i < n && ms[i].name == a
    ensures a in names ==> IndexOf(ms, a) < n
  {
  }

  /** Attributes and text are listed as they stand. */
  lemma {:induction false} SpecialOrder(ms: seq<Member>, n: nat, a: string, b: string)
    requires DistinctNames(ms) && n <= |ms| && a in SpecialNames(ms, n) && b in SpecialNames(ms, n)
    ensures Position(SpecialNames(ms, n), a) < Position(SpecialNames(ms, n), b) <==> IndexOf(ms, a) < IndexOf(ms, b)
  {
    var rest, last := SpecialNames(ms, n - 1), ms[n - 1].name;
    SpecialNext(ms, n);
    hide Special, SpecialNames, IndexOf, Position, DistinctNames;
    if !Special(last) {
      SpecialOrder(ms, n - 1, a, b);
    } else if a in rest && b in rest {
      SpecialOrder(ms, n - 1, a, b);
      PositionInLonger(rest, [last], a);
      PositionInLonger(rest, [last], b);
    } else {
      OneIsLast(rest, last, a, b);
    }
  }

  lemma SpecialNext(ms: seq<Member>, n: nat)
    requires DistinctNames(ms) && 0 < n <= |ms|
    ensures var rest, last := SpecialNames(ms, n - 1), ms[n - 1].name;
            && SpecialNames(ms, n) == (if Special(last) then rest + [last] else rest)
            && IndexOf(ms, last) == n - 1
            && forall k :: k in rest ==> IndexOf(ms, k) < n - 1
  {
    var rest := SpecialNames(ms, n - 1);
    assert rest + [] == rest;
    SpecialNamesHere(ms, n - 1);
    hide Special;
    forall k | k in rest
      ensures IndexOf(ms, k) < n - 1
    {
      EarlierIndex(ms, n - 1, rest, k);
    }
  }

  lemma PositionBehind(before: seq<string>, names: seq<string>, name: string)
    requires name !in before && name in names
    ensures Position(before + names, name) == |before| + Position(names, name)
  {
    var p := Position(names, name);
    hide Position;
    FirstBehind(before, names, p);
    PositionIs(before + names, name, |before| + p);
  }

  lemma FirstBehind<T>(a: seq<T>, b: seq<T>, p: nat)
    requires p < |b| && b[p] !in a && b[p] !in b[..p]
    ensures (a + b)[|a| + p] == b[p] && b[p] !in (a + b)[..|a| + p]
  {
    assert forall i :: 0 <= i < p ==> b[i] in b[..p];
    forall i | 0 <= i < |a| + p
      ensures (a + b)[i] != b[p]
    {
      assert i < |a| ==> (a + b)[i] == a[i];
      assert i >= |a| ==> (a + b)[i] == b[i - |a|];
    }
  }

  /** Known members come first, by their first place in the content model; then the unknown ones by name; then
      attributes and text as they stood. */
  predicate ComesFirst(ms: seq<Member>, keys: seq<string>, a: string, b: string) {
    if a in keys then b in keys ==> Position(keys, a) < Position(keys, b)
    else if b in keys then false
    else if Special(a) then Special(b) && IndexOf(ms, a) < IndexOf(ms, b)
    else Special(b) || StrLe(a, b)
  }

  lemma {:induction false} PartsInOrder(ms: seq<Member>, keys: seq<string>, known: seq<string>, unknown: seq<string>,
                                        special: seq<string>, a: string, b: string)
    requires DistinctNames(ms) && Has(ms, a) && Has(ms, b) && a != b
    requires known == Present(keys, ms) && special == SpecialNames(ms, |ms|)
    requires unknown == SortNames(UnknownNames(ms, keys, |ms|))
    ensures a in known + unknown + special && b in known + unknown + special
    ensures Position(known + unknown + special, a) < Position(known + unknown + special, b) <==> ComesFirst(ms, keys, a, b)
  {
    PartsHold(ms, keys, known, unknown, special, a);
    PartsHold(ms, keys, known, unknown, special, b);
    if a in keys && b in keys {
      PresentOrder(keys, ms, a, b);
    } else if a !in keys && b !in keys {
      if Special(a) && Special(b) {
        SpecialOrder(ms, |ms|, a, b);
      } else if !Special(a) && !Special(b) {
        UnknownOrder(ms, keys, unknown, a, b);
      }
    }
    hide Has, Special, Present, SpecialNames, UnknownNames, SortNames, StrLe;
  }

  lemma {:induction false} UnknownOrder(ms: seq<Member>, keys: seq<string>, unknown: seq<string>, a: string, b: string)
    requires a in unknown && b in unknown && a != b && SortedNames(unknown)
    ensures Position(unknown, a) < Position(unknown, b) <==> StrLe(a, b)
  {
    hide StrLe;
    if StrLe(a, b) && Position(unknown, b) < Position(unknown, a) {
      StrLeAntisymmetric(a, b);
    }
  }

  lemma {:induction false} PartsOf(ms: seq<Member>, keys: seq<string>, a: string)
    requires Has(ms, a)
    ensures SortedNames(SortNames(UnknownNames(ms, keys, |ms|)))
    ensures a in Present(keys, ms) <==> a in keys
    ensures a in SortNames(UnknownNames(ms, keys, |ms|)) <==> a !in keys && !Special(a)
    ensures a in SpecialNames(ms, |ms|) <==> Special(a)
  {
    PresentHolds(keys, ms);
    UnknownNamesHere(ms, keys, |ms|);
    SpecialNamesHere(ms, |ms|);
    NamesHave(ms, a);
    SortNamesSorts(UnknownNames(ms, keys, |ms|));
    hide Has, Special, Present, SpecialNames, UnknownNames, SortNames, StrLe;
  }

  /** The part in which a member is listed, and where. */
  lemma {:induction false} PartsHold(ms: seq<Member>, keys: seq<string>, known: seq<string>, unknown: seq<string>,
                                     special: seq<string>, a: string)
    requires Has(ms, a)
    requires known == Present(keys, ms) && special == SpecialNames(ms, |ms|)
    requires unknown == SortNames(UnknownNames(ms, keys, |ms|))
    ensures SortedNames(unknown)
    ensures a in known <==> a in keys
    ensures a in unknown <==> a !in keys && !Special(a)
    ensures a in special <==> Special(a)
    ensures a in known + unknown + special
    ensures Position(known + unknown + special, a) ==
            if a in keys then Position(known, a)
            else if Special(a) then |known| + |unknown| + Position(special, a)
            else |known| + Position(unknown, a)
  {
    PartsOf(ms, keys, a);
    hide Has, Special, Present, SpecialNames, UnknownNames, SortNames, StrLe, Position;
    if a in keys {
      assert known + unknown + special == known + (unknown + special);
      PositionInLonger(known, unknown + special, a);
    } else if Special(a) {
      PositionBehind(known + unknown, special, a);
    } else {
      PositionBehind(known, unknown, a);
      PositionInLonger(known + unknown, special, a);
    }
  }

  /** Every member stays, once; which of two comes first is settled by the content model, the name or the document. */
  lemma {:induction false} MembersInOrder(c: Catalog, fuel: nat, v: Node, spec: ChildSpec, path: string, a: string, b: string)
    requires Valid(v) && v.Members? && OrderNode(c, fuel, v, spec, path).Ok?
    requires Has(v.members, a) && Has(v.members, b) && a != b
    ensures var children := ElementChildren(c, fuel, spec.name, spec.schema, spec.namespaces, {});
            var out := OrderNode(c, fuel, v, spec, path).value.0;
            && children.Ok? && out.Members?
            && a in NamesOf(out.members) && b in NamesOf(out.members)
            && (Position(NamesOf(out.members), a) < Position(NamesOf(out.members), b) <==>
                ComesFirst(v.members, KeysOf(children.value), a, b))
  {
    var ms := v.members;
    OrderOfMembers(c, fuel, v, spec, path);
    var keys := KeysOf(ElementChildren(c, fuel, spec.name, spec.schema, spec.namespaces, {}).value);
    hide OrderNode, ElementChildren, Special, Has, ComesFirst;
    var known, unknown, special := Present(keys, ms), SortNames(UnknownNames(ms, keys, |ms|)), SpecialNames(ms, |ms|);
    PartsInOrder(ms, keys, known, unknown, special, a, b);
    FirstOccurrenceOrder(known + unknown + special, a, b);
  }

  // ---------- reports ----------

  /** The report names a member of this object that the content model has no place for. */
  ghost predicate ReportedHere(c: Catalog, fuel: nat, v: Node, spec: ChildSpec, path: string, u: Unsupported)
    requires v.Members?
  {
    var children := ElementChildren(c, fuel, spec.name, spec.schema, spec.namespaces, {});
    && ContentAllowsAny(c, fuel, spec.name, spec.schema, spec.namespaces, {}) == Ok(false)
    && u.path == path && Has(v.members, u.element) && !Special(u.element)
    && children.Ok? && u.element !in KeysOf(children.value)
  }

  ghost predicate ReportedIn(c: Catalog, fuel: nat, v: Node, spec: ChildSpec, path: string, u: Unsupported) {
    var r := OrderNode(c, fuel, v, spec, path);
    r.Ok? && u in r.value.1
  }

  ghost predicate ReportedBelow(c: Catalog, fuel: nat, v: Node, children: seq<ChildSpec>, path: string, n: nat, u: Unsupported)
    requires v.Members? && n <= |children|
  {
    exists i :: 0 <= i < n && Has(v.members, children[i].key) &&
                ReportedIn(c, fuel, v.members[IndexOf(v.members, children[i].key)].node, children[i],
                           path + "/" + children[i].key, u)
  }

  lemma ReportedInIs(c: Catalog, fuel: nat, v: Node, spec: ChildSpec, path: string, u: Unsupported)
    requires OrderNode(c, fuel, v, spec, path).Ok?
    ensures ReportedIn(c, fuel, v, spec, path, u) <==> u in OrderNode(c, fuel, v, spec, path).value.1
  {
    hide OrderNode;
  }

  lemma {:induction false} KnownReports(c: Catalog, fuel: nat, v: Node, children: seq<ChildSpec>, path: string, n: nat,
                                        u: Unsupported)
    requires v.Members? && n <= |children| && OrderKnown(c, fuel, v, children, path, n).Ok?
    ensures u in OrderKnown(c, fuel, v, children, path, n).value.1 <==> ReportedBelow(c, fuel, v, children, path, n, u)
  {
    hide OrderNode, ReportedIn;
    if n > 0 {
      KnownReports(c, fuel, v, children, path, n - 1, u);
      var i := n - 1;
      if Has(v.members, children[i].key) {
        ReportedInIs(c, fuel, v.members[IndexOf(v.members, children[i].key)].node, children[i], path + "/" + children[i].key, u);
      }
    }
  }

  /** Exactly the members that the content model has no place for are reported, at every depth. */
  lemma {:induction false} UnsupportedAreReported(c: Catalog, fuel: nat, v: Node, spec: ChildSpec, path: string, u: Unsupported)
    requires Valid(v) && v.Members? && OrderNode(c, fuel, v, spec, path).Ok?
    ensures ElementChildren(c, fuel, spec.name, spec.schema, spec.namespaces, {}).Ok?
    ensures var children := ElementChildren(c, fuel, spec.name, spec.schema, spec.namespaces, {}).value;
            u in OrderNode(c, fuel, v, spec, path).value.1 <==>
            ReportedHere(c, fuel, v, spec, path, u) || ReportedBelow(c, fuel, v, children, path, |children|, u)
  {
    var children := ElementChildren(c, fuel, spec.name, spec.schema, spec.namespaces, {}).value;
    var known := OrderKnown(c, fuel, v, children, path, |children|).value.0;
    KnownReports(c, fuel, v, children, path, |children|, u);
    KnownFaithful(c, fuel, v, children, path, |children|);
    assert KeysOf(children)[..|children|] == KeysOf(children);
    UnknownAre(v.members, known, KeysOf(children), |v.members|);
    UnknownNamesHere(v.members, KeysOf(children), |v.members|);
    NamesHave(v.members, u.element);
    var unknown := Unknown(v.members, known, |v.members|);
    hide ElementChildren, ContentAllowsAny, OrderKnown, Faithful, WithRest, Unknown, UnknownNames, Special, Has, ReportedBelow, Extended;
    ReportsOf(path, unknown, u);
  }

  lemma ReportsOf(path: string, names: seq<string>, u: Unsupported)
    ensures u in Reported(path, names) <==> u.path == path && u.element in names
  {
    if u.path == path && u.element in names {
      var i :| 0 <= i < |names| && names[i] == u.element;
      assert Reported(path, names)[i] == u;
    }
  }

  lemma {:induction false} ItemReports(c: Catalog, fuel: nat, v: Node, spec: ChildSpec, path: string, n: nat, u: Unsupported)
    requires v.Items? && n <= |v.items| && OrderItems(c, fuel, v, spec, path, n).Ok?
    ensures u in OrderItems(c, fuel, v, spec, path, n).value.1 <==>
            exists i :: 0 <= i < n && ReportedIn(c, fuel, v.items[i], spec, path, u)
  {
    hide OrderNode, ReportedIn;
    if n > 0 {
      ItemReports(c, fuel, v, spec, path, n - 1, u);
      ReportedInIs(c, fuel, v.items[n - 1], spec, path, u);
    }
  }

  // ---------- when ordering fails ----------

  /** Every object that ordering comes to has a content model that resolves. */
  predicate Described(c: Catalog, fuel: nat, v: Node, spec: ChildSpec)
    decreases v, 1
  {
    match v
    case Scalar(_) => true
    case Items(items) => forall i :: 0 <= i < |items| ==> Described(c, fuel, items[i], spec)
    case Members(ms) =>
      var children := ElementChildren(c, fuel, spec.name, spec.schema, spec.namespaces, {});
      && children.Ok?
      && ContentAllowsAny(c, fuel, spec.name, spec.schema, spec.namespaces, {}).Ok?
      && MembersDescribed(c, fuel, v, children.value)
  }

  predicate MembersDescribed(c: Catalog, fuel: nat, v: Node, children: seq<ChildSpec>)
    requires v.Members?
    decreases v, 0
  {
    forall i, j :: 0 <= i < |children| && 0 <= j < |v.members| && IndexOf(v.members, children[i].key) == j ==>
                     Described(c, fuel, v.members[j].node, children[i])
  }

  /** Ordering fails exactly when it comes to an object without a content model. */
  lemma {:induction false} OrderedIff(c: Catalog, fuel: nat, v: Node, spec: ChildSpec, path: string)
    ensures OrderNode(c, fuel, v, spec, path).Ok? <==> Described(c, fuel, v, spec)
    decreases v, 1
  {
    match v
    case Scalar(_) =>
    case Items(items) =>
      ItemsOrderedIff(c, fuel, v, spec, path, |items|);
      hide OrderItems;
    case Members(ms) =>
      ObjectOrdered(c, fuel, v, spec, path);
      hide *;
      var children := ElementChildren(c, fuel, spec.name, spec.schema, spec.namespaces, {});
      if children.Ok? {
        KnownOrderedIff(c, fuel, v, children.value, path, |children.value|);
        assert children.value[..|children.value|] == children.value;
      }
  }

  lemma ObjectOrdered(c: Catalog, fuel: nat, v: Node, spec: ChildSpec, path: string)
    requires v.Members?
    ensures var children := ElementChildren(c, fuel, spec.name, spec.schema, spec.namespaces, {});
            var any := ContentAllowsAny(c, fuel, spec.name, spec.schema, spec.namespaces, {});
            && (OrderNode(c, fuel, v, spec, path).Ok? <==>
                children.Ok? && any.Ok? && OrderKnown(c, fuel, v, children.value, path, |children.value|).Ok?)
            && (Described(c, fuel, v, spec) <==> children.Ok? && any.Ok? && MembersDescribed(c, fuel, v, children.value))
  {
    hide OrderKnown, ElementChildren, ContentAllowsAny, WithRest, Unknown, MembersDescribed;
  }

  lemma {:induction false} ItemsOrderedIff(c: Catalog, fuel: nat, v: Node, spec: ChildSpec, path: string, n: nat)
    requires v.Items? && n <= |v.items|
    ensures OrderItems(c, fuel, v, spec, path, n).Ok? <==> forall i :: 0 <= i < n ==> Described(c, fuel, v.items[i], spec)
    decreases v, 0, n
  {
    if n > 0 {
      ItemsOrderedIff(c, fuel, v, spec, path, n - 1);
      OrderedIff(c, fuel, v.items[n - 1], spec, path);
      hide OrderNode, Described;
    }
  }

  lemma {:induction false} KnownOrderedIff(c: Catalog, fuel: nat, v: Node, children: seq<ChildSpec>, path: string, n: nat)
    requires v.Members? && n <= |children|
    ensures OrderKnown(c, fuel, v, children, path, n).Ok? <==> MembersDescribed(c, fuel, v, children[..n])
    decreases v, 0, n
  {
    hide *;
    if n == 0 {
      NoneOrdered(c, fuel, v, children, path);
    } else {
      KnownOrderedIff(c, fuel, v, children, path, n - 1);
      OneMoreDescribed(c, fuel, v, children, n);
      OneMoreOrdered(c, fuel, v, children, path, n);
      var i := IndexOf(v.members, children[n - 1].key);
      if i < |v.members| {
        var child := v.members[i];
        OrderedIff(c, fuel, child.node, children[n - 1], path + "/" + children[n - 1].key);
      }
    }
  }

  lemma NoneOrdered(c: Catalog, fuel: nat, v: Node, children: seq<ChildSpec>, path: string)
    requires v.Members?
    ensures OrderKnown(c, fuel, v, children, path, 0).Ok? && MembersDescribed(c, fuel, v, children[..0])
  {
    hide OrderNode, Described, IndexOf;
  }

  lemma OneMoreOrdered(c: Catalog, fuel: nat, v: Node, children: seq<ChildSpec>, path: string, n: nat)
    requires v.Members? && 0 < n <= |children|
    ensures var i := IndexOf(v.members, children[n - 1].key);
            OrderKnown(c, fuel, v, children, path, n).Ok? <==>
            && OrderKnown(c, fuel, v, children, path, n - 1).Ok?
            && (i < |v.members| ==>
                OrderNode(c, fuel, v.members[i].node, children[n - 1], path + "/" + children[n - 1].key).Ok?)
  {
    hide OrderNode, IndexOf, Insert;
  }

  lemma OneMoreDescribed(c: Catalog, fuel: nat, v: Node, children: seq<ChildSpec>, n: nat)
    requires v.Members? && 0 < n <= |children|
    ensures var i := IndexOf(v.members, children[n - 1].key);
            MembersDescribed(c, fuel, v, children[..n]) <==>
            && MembersDescribed(c, fuel, v, children[..n - 1])
            && (i < |v.members| ==> Described(c, fuel, v.members[i].node, children[n - 1]))
  {
    hide Described, IndexOf;
    var before := children[..n - 1];
    assert children[..n] == before + [children[n - 1]];
  }

  /** A document is ordered exactly when one schema element describes its only member. */
  lemma {:induction false} DocumentOrderedIff(c: Catalog, fuel: nat, document: Node)
    ensures OrderDocument(c, fuel, document).Ok? <==>
            && document.Members? && |document.members| == 1
            && |Candidates(c, document.members[0].name)| == 1
            && forall q :: q in Candidates(c, document.members[0].name) ==>
                 Described(c, fuel, document.members[0].node,
                           ChildSpec(document.members[0].name, q, c.elements[q].node, c.elements[q].namespaces))
  {
    hide OrderNode, Described;
    if document.Members? && |document.members| == 1 && |Candidates(c, document.members[0].name)| == 1 {
      var root := document.members[0];
      forall q | q in Candidates(c, root.name)
        ensures OrderDocument(c, fuel, document).Ok? <==>
                Described(c, fuel, root.node, ChildSpec(root.name, q, c.elements[q].node, c.elements[q].namespaces))
      {
        OrderedIff(c, fuel, root.node, ChildSpec(root.name, q, c.elements[q].node, c.elements[q].namespaces), root.name);
        forall other | other in Candidates(c, root.name)
          ensures other == q
        {
          OnlyCandidate(Candidates(c, root.name), q, other);
        }
      }
      var q :| q in Candidates(c, root.name);
    }
  }

  // ---------- the order of members in a document does not matter ----------

  /** A member of one arrangement is, by its name, a member of the other, and means the same. */
  lemma {:induction false} FoundAlike(a: seq<Member>, b: seq<Member>, key: string)
    requires DistinctNames(a) && DistinctNames(b) && EraseMembers(a) == EraseMembers(b)
    ensures IndexOf(a, key) < |a| <==> IndexOf(b, key) < |b|
    ensures IndexOf(a, key) < |a| ==> Erase(a[IndexOf(a, key)].node) == Erase(b[IndexOf(b, key)].node)
  {
    EraseNames(a);
    EraseNames(b);
    hide IndexOf, Erase, EraseMembers;
    if IndexOf(a, key) < |a| {
      EraseAt(a, IndexOf(a, key));
    }
    if IndexOf(b, key) < |b| {
      EraseAt(b, IndexOf(b, key));
    }
  }

  lemma {:induction false} DescribedAlike(c: Catalog, fuel: nat, a: Node, b: Node, spec: ChildSpec)
    requires Valid(a) && Valid(b) && Erase(a) == Erase(b) && Described(c, fuel, a, spec)
    ensures Described(c, fuel, b, spec)
    decreases a, 1
  {
    match a
    case Scalar(_) =>
    case Items(items) =>
      forall i | 0 <= i < |items|
        ensures Described(c, fuel, b.items[i], spec)
      {
        assert Erase(items[i]) == Erase(a).items[i] == Erase(b).items[i] == Erase(b.items[i]);
        DescribedAlike(c, fuel, items[i], b.items[i], spec);
      }
    case Members(_) =>
      MembersAlike(c, fuel, a, b, ElementChildren(c, fuel, spec.name, spec.schema, spec.namespaces, {}).value);
      hide ElementChildren, ContentAllowsAny, MembersDescribed, EraseMembers;
  }

  lemma {:induction false} MembersAlike(c: Catalog, fuel: nat, a: Node, b: Node, children: seq<ChildSpec>)
    requires a.Members? && b.Members? && Valid(a) && Valid(b) && Erase(a) == Erase(b)
    requires MembersDescribed(c, fuel, a, children)
    ensures MembersDescribed(c, fuel, b, children)
    decreases a, 0
  {
    hide Described, IndexOf, EraseMembers;
    forall i, j | 0 <= i < |children| && 0 <= j < |b.members| && IndexOf(b.members, children[i].key) == j
      ensures Described(c, fuel, b.members[j].node, children[i])
    {
      FoundAlike(a.members, b.members, children[i].key);
      var k := IndexOf(a.members, children[i].key);
      DescribedAlike(c, fuel, a.members[k].node, b.members[j].node, children[i]);
    }
  }

  /** Whether a document can be ordered does not depend on how its members are arranged. */
  lemma {:induction false} OrderedAlike(c: Catalog, fuel: nat, a: Node, b: Node)
    requires Valid(a) && Valid(b) && Erase(a) == Erase(b) && OrderDocument(c, fuel, a).Ok?
    ensures OrderDocument(c, fuel, b).Ok?
  {
    DocumentOrderedIff(c, fuel, a);
    DocumentOrderedIff(c, fuel, b);
    hide OrderDocument, Described;
    assert b.Members?;
    OneMember(a.members);
    OneMember(b.members);
    var x, y := a.members[0], b.members[0];
    assert a.members == [x] && b.members == [y];
    EraseSingle(x);
    EraseSingle(y);
    var m := Erase(a).members;
    assert m == map[x.name := Erase(x.node)] == map[y.name := Erase(y.node)];
    assert x.name in m && y.name in m && m[x.name] == m[y.name];
    forall q | q in Candidates(c, y.name)
      ensures Described(c, fuel, y.node, ChildSpec(y.name, q, c.elements[q].node, c.elements[q].namespaces))
    {
      DescribedAlike(c, fuel, x.node, y.node, ChildSpec(x.name, q, c.elements[q].node, c.elements[q].namespaces));
    }
  }
}
