/** One run of the whole path: split, project, order, write, read, restore, type and merge. */
module WholePath {
  import opened Json
  import opened Pointer
  import opened OrderedJson
  import opened Overlay
  import opened Recovery
  import opened Format
  import opened XmlRoundTrip
  import opened XmlWriting
  import opened Rules
  import opened Exposure
  import opened Adaptation
  import opened Lossless
  import opened EndToEnd
  import MemberOrder
  import Ordering
  import OrderingDepth
  import Sidecars

  /** The step at which the path ended. */
  datatype PathError =
    | NotSplit(split: Sidecars.EnvelopeError)
    | NotProjected(projection: ProjectionError)
    | NotOrdered(order: Ordering.OrderError)
    | NotWritten(write: XmlError)
    | NotRead(read: XmlError)
    | NotRestored(restore: RestoreError)
    | NotMerged(merge: Sidecars.EnvelopeError)

  // ---------- member order ----------

  lemma {:induction false} ArrangedNext(ms: seq<Member>, m: Member)
    requires DistinctNames(ms) && m.name !in EraseMembers(ms)
    ensures DistinctNames([m] + ms) && EraseMembers([m] + ms) == EraseMembers(ms)[m.name := Erase(m.node)]
  {
    var all := [m] + ms;
    EraseNames(ms);
    assert all[1..] == ms;
    assert forall i :: 0 < i < |all| ==> all[i] == ms[i - 1];
    assert EraseMembers(ms) + map[m.name := Erase(m.node)] == EraseMembers(ms)[m.name := Erase(m.node)];
  }

  /** A document with its members in some order. */
  method Arranged(v: Value) returns (n: Node)
    ensures Valid(n) && Erase(n) == v
    decreases v
  {
    match v
    case Obj(m) =>
      var ms: seq<Member>, rest := [], m.Keys;
      while rest != {}
        invariant rest <= m.Keys && DistinctNames(ms) && forall i :: 0 <= i < |ms| ==> Valid(ms[i].node)
        invariant EraseMembers(ms) == map k | k in m && k !in rest :: m[k]
        decreases |rest|
      {
        var k :| k in rest;
        var child := Arranged(m[k]);
        ArrangedNext(ms, Member(k, child));
        ms, rest := [Member(k, child)] + ms, rest - {k};
      }
      assert EraseMembers(ms) == m;
      n := Members(ms);
    case Arr(items) =>
      var nodes: seq<Node> := [];
      for i := 0 to |items|
        invariant |nodes| == i && forall j :: 0 <= j < i ==> Valid(nodes[j]) && Erase(nodes[j]) == items[j]
      {
        var node := Arranged(items[i]);
        nodes := nodes + [node];
      }
      n := Items(nodes);
    case _ => n := Scalar(v);
  }

  // ---------- the premises ----------

  /** What the tokenizer may make of written events. */
  ghost predicate Tokenized(written: seq<Event>, tokens: seq<Event>) {
    exists chunks, tail :: Reads(written, chunks) && Noise(tail) && tokens == Flatten(chunks) + tail
  }

  /** The files the whole path gives back: the dataset is safe and no array, and years are canonical decimals. */
  predicate SafeFile(document: Value, category: string, root: string) {
    match Sidecars.SplitEnvelope(document, Some(root))
    case Err(_) => true
    case Ok(split) =>
      XmlSafeSource(split.document, category)
      && (category == "processes" ==> Sidecars.YearsCanonical(SemanticDigest(split.document)))
      && (split.document.Obj? ==> forall k :: k in split.document.members ==> !split.document.members[k].Arr?)
  }

  lemma {:induction false} RootPaths()
    ensures !IsExchangePath("") && !IsTimePath("") && !EndsWith("", "/name")
  {
  }

  /** The one member of the projected dataset is the one of the source, and no array. */
  lemma {:induction false} ProjectedRoot(source: Value, category: string, p: ProjectedDocument, name: string, v: Value)
    requires source.Obj? && |source.members| == 1 && Projects(source, category, p)
    requires forall k :: k in source.members ==> !source.members[k].Arr?
    requires p.document == Obj(map[name := v])
    ensures name in source.members && source.members.Keys == {name} && !v.Arr?
  {
    RootPaths();
    var m, out := source.members, p.document.members;
    assert !Renames(m, "", category) by {
      hide IsExchangePath, IsTimePath, EndsWith;
    }
    hide Renames, Remains, Shallow, ScalarsKept, Recovers, Adapted, Unmarked;
    assert ArraysKept(m, out);
    assert name in out && out[name] == v;
    OnlyKey(m.Keys, name);
  }

  lemma {:induction false} OnlyKey(keys: set<string>, k: string)
    requires |keys| == 1 && k in keys
    ensures keys == {k}
  {
    assert |keys - {k}| == 0;
    assert keys == {k} + (keys - {k});
  }

  lemma {:induction false} SplitDocumentHasOne(document: Value, root: string, split: Sidecars.SplitDocument, name: string)
    requires Sidecars.SplitEnvelope(document, Some(root)) == Ok(split)
    ensures split.document.Obj? && |split.document.members| == 1
    ensures split.document.members.Keys == {name} ==> Sidecars.SplitEnvelope(document, Some(name)) == Ok(split)
  {
    if |document.members| != 1 {
      assert split.document.members.Keys == {root};
    }
  }

  // ---------- the run ----------

  /** Orders a document when there is a schema catalogue. What comes out of the orderer is an object of one member. */
  method Ordered(node: Node, orderer: Option<Ordering.Catalog>, fuel: nat) returns (r: Result<Node, Ordering.OrderError>)
    requires Valid(node)
    ensures r.Ok? ==> Valid(r.value) && Erase(r.value) == Erase(node)
    ensures r.Ok? && orderer.Some? ==> r.value.Members? && |r.value.members| == 1 && OrderedAs(orderer.value, fuel, node, r.value)
    ensures r.Err? ==>
              && orderer.Some? && Ordering.OrderDocument(orderer.value, fuel, node) == Err(r.error)
              && DepthSuffices(orderer.value, fuel, r.error)
  {
    hide Ordering.OrderNode, Valid, Erase, OrderingDepth.Acyclic;
    if orderer.None? {
      return Ok(node);
    }
    var diagnostics := new Ordering.OrderingDiagnostics();
    r := Ordering.OrderDocumentReporting(orderer.value, fuel, node, diagnostics);
    if r.Ok? {
      Ordering.OrderDocumentKeepsMeaning(orderer.value, fuel, node);
      OrdererOutput(orderer.value, fuel, node);
    } else if OrderingDepth.Acyclic(orderer.value) && fuel >= |orderer.value.complexTypes| + |orderer.value.groups| {
      OrderingDepth.DepthIsEnough(orderer.value, fuel, node);
    }
  }

  /** The orderer makes `out` of the document `m`. */
  ghost predicate OrderedAs(c: Ordering.Catalog, fuel: nat, m: Node, out: Node) {
    var ordered := Ordering.OrderDocument(c, fuel, m);
    ordered.Ok? && ordered.value.0 == out
  }

  /** `out` is what the orderer makes of the members of `document` in some order. */
  ghost predicate OrderedFrom(c: Ordering.Catalog, fuel: nat, document: Value, out: Node) {
    exists m :: Valid(m) && Erase(m) == document && OrderedAs(c, fuel, m, out)
  }

  /** Ordering does not fail for lack of depth if the catalogue is acyclic and the depth covers it. */
  ghost predicate DepthSuffices(c: Ordering.Catalog, fuel: nat, e: Ordering.OrderError) {
    OrderingDepth.Acyclic(c) && fuel >= |c.complexTypes| + |c.groups| ==> !e.TooDeep?
  }

  /** The catalogue orders the document, in whatever order its members are handed on. */
  ghost predicate Orderable(c: Ordering.Catalog, fuel: nat, document: Value) {
    forall m :: Valid(m) && Erase(m) == document ==> Ordering.OrderDocument(c, fuel, m).Ok?
  }

  /** The catalogue does not order the document, and `e` is why. */
  ghost predicate Misordered(c: Ordering.Catalog, fuel: nat, document: Value, e: Ordering.OrderError) {
    && (exists m :: Valid(m) && Erase(m) == document && Ordering.OrderDocument(c, fuel, m) == Err(e))
    && !Orderable(c, fuel, document) && DepthSuffices(c, fuel, e)
  }

  lemma OneArrangement(c: Ordering.Catalog, fuel: nat, m: Node)
    requires Valid(m)
    ensures Orderable(c, fuel, Erase(m)) <==> Ordering.OrderDocument(c, fuel, m).Ok?
  {
    hide Valid, Erase, Ordering.OrderDocument;
    if Ordering.OrderDocument(c, fuel, m).Ok? {
      forall other | Valid(other) && Erase(other) == Erase(m)
        ensures Ordering.OrderDocument(c, fuel, other).Ok?
      {
        MemberOrder.OrderedAlike(c, fuel, m, other);
      }
    }
  }

  /** Writes a document of one member. */
  method WriteDocument(node: Node, letters: Letters) returns (r: Result<seq<Event>, XmlError>, ghost name: string, ghost n: Node)
    requires Valid(node)
    ensures r.Ok? ==> node == Members([Member(name, n)])
                      && Valid(n) && Erase(node) == Obj(map[name := Erase(n)]) && Written(name, n, letters) == r
    ensures node.Members? && |node.members| == 1 ==>
              match Written(node.members[0].name, node.members[0].node, letters)
              case Ok(events) => r == Ok(events)
              case Err(e) => r == Err(e)
    ensures !node.Members? ==> r == Err(RootNotObject)
    ensures node.Members? && |node.members| != 1 ==> r == Err(RootCount(|node.members|))
    ensures r.Ok? <==> WritableDocument(Erase(node), letters)
    ensures r.Err? && node.Members? && |node.members| == 1 ==> ElementError(r.error)
  {
    hide Written, Writable;
    if node.Members? {
      OneMember(node.members);
    }
    name, n := "", node;
    if !node.Members? {
      return Err(RootNotObject), name, n;
    }
    if |node.members| != 1 {
      return Err(RootCount(|node.members|)), name, n;
    }
    var root := node.members[0];
    name, n := root.name, root.node;
    assert node == Members([root]);
    EraseSingle(root);
    WrittenIff(name, n, letters);
    WrittenFails(name, n, letters);
    var writer := new XmlWriter();
    var written := writer.WriteElement(root.name, root.node, letters);
    if written.Err? {
      return Err(written.error), name, n;
    }
    assert [] + Written(name, n, letters).value == Written(name, n, letters).value;
    r := Ok(writer.events);
  }

  /** TIDAS to eILCD. The projected document is handed on with its members in some order. */
  method ToXml(dataset: Value, category: string, orderer: Option<Ordering.Catalog>, fuel: nat, letters: Letters)
    returns (r: Result<seq<Event>, PathError>, projected: Result<ProjectedDocument, ProjectionError>, ghost name: string, ghost n: Node)
    ensures Undone(projected, dataset) <==> !Exposed(dataset, "", category)
    ensures !Exposed(dataset, "", category) ==> projected.Ok? && Projects(dataset, category, projected.value)
    ensures r.Err? ==> r.error.NotProjected? || r.error.NotOrdered? || r.error.NotWritten?
    ensures r.Err? && r.error.NotProjected? <==> projected.Err?
    ensures r.Err? && r.error.NotOrdered? ==>
              projected.Ok? && orderer.Some? && Misordered(orderer.value, fuel, projected.value.document, r.error.order)
    ensures r.Ok? <==> projected.Ok? && (orderer.Some? ==> Orderable(orderer.value, fuel, projected.value.document))
                       && WritableDocument(projected.value.document, letters)
    ensures r.Err? && r.error.NotWritten? ==>
              && projected.Ok? && !WritableDocument(projected.value.document, letters)
              && (orderer.Some? ==> ElementError(r.error.write))
    ensures r.Ok? ==> projected.Ok? && projected.value.document == Obj(map[name := Erase(n)])
                      && Valid(n) && Written(name, n, letters) == Ok(r.value)
    ensures r.Ok? && orderer.Some? ==>
              OrderedFrom(orderer.value, fuel, projected.value.document, Members([Member(name, n)]))
  {
    hide Exposed, Projects, Undone, Adapted, Tracks, Written, Valid, Erase, WritableDocument, Orderable, DepthSuffices,
      Ordering.OrderDocument;
    name, n := "", Scalar(Null);
    projected := ProjectTidasToEilcd(dataset, category);
    if projected.Err? {
      return Err(NotProjected(projected.error)), projected, name, n;
    }
    var node := Arranged(projected.value.document);
    var ordered := Ordered(node, orderer, fuel);
    if orderer.Some? {
      OneArrangement(orderer.value, fuel, node);
    }
    if ordered.Err? {
      return Err(NotOrdered(ordered.error)), projected, name, n;
    }
    var written;
    written, name, n := WriteDocument(ordered.value, letters);
    r := match written case Ok(events) => Ok(events) case Err(e) => Err(NotWritten(e));
  }

  /** eILCD to TIDAS, with the sidecars of the conversion. */
  method FromXml(tokens: seq<Event>, recovery: Option<RecoveryContract>, envelope: Option<map<string, Value>>, category: string,
                 letters: Letters)
    returns (r: Result<Value, PathError>)
    ensures Parsed(tokens, letters).Err? ==> r == Err(NotRead(Parsed(tokens, letters).error))
    ensures Parsed(tokens, letters).Ok? ==>
              match Recovered(Parsed(tokens, letters).value, recovery)
              case Err(e) => r == Err(NotRestored(e))
              case Ok(restored) =>
                var dataset := EndToEnd.Typed(restored, category);
                match envelope
                case None => r == Ok(dataset)
                case Some(members) =>
                  if !dataset.Obj? then r == Err(NotMerged(Sidecars.RootNotObject))
                  else if dataset.members.Keys !! members.Keys then r == Ok(Obj(dataset.members + members))
                  else r.Err? && r.error.NotMerged?
  {
    hide Parsed, Restored, EndToEnd.Typed;
    var read := XmlToJson(tokens, letters);
    if read.Err? {
      return Err(NotRead(read.error));
    }
    var restored := Ok(read.value);
    if recovery.Some? {
      restored := RestoreTidasProjection(read.value, recovery.value);
    }
    if restored.Err? {
      return Err(NotRestored(restored.error));
    }
    var dataset := EndToEnd.Typed(restored.value, category);
    var merged := Sidecars.MergeEnvelope(dataset, envelope);
    r := match merged case Ok(v) => Ok(v) case Err(e) => Err(NotMerged(e));
  }

  /** Away and back; `sent` is the projection. A safe file that can be split comes back with its normal form, unless
      its catalogue does not order it, or its projection has a name or a character that XML does not allow. */
  method ThereAndBack(document: Value, category: string, root: string, orderer: Option<Ordering.Catalog>, fuel: nat, letters: Letters,
                      tokenize: seq<Event> -> seq<Event>)
    returns (r: Result<Value, PathError>, ghost sent: Result<ProjectedDocument, ProjectionError>)
    requires forall written :: Tokenized(written, tokenize(written))
    ensures r.Err? && r.error.NotSplit? <==> Sidecars.SplitEnvelope(document, Some(root)).Err?
    ensures SafeFile(document, category, root) && Sidecars.SplitEnvelope(document, Some(root)).Ok? ==>
              && sent.Ok? && Projects(Sidecars.SplitEnvelope(document, Some(root)).value.document, category, sent.value)
              && match r
                 case Ok(back) => WritableDocument(sent.value.document, letters) && SemanticDigest(back) == SemanticDigest(document)
                 case Err(NotOrdered(e)) =>
                   orderer.Some? && Misordered(orderer.value, fuel, sent.value.document, e)
                 case Err(NotWritten(_)) => !WritableDocument(sent.value.document, letters)
                 case Err(_) => false
  {
    hide XmlSafeSource, Parsed, Recovered, EndToEnd.Typed, Written, Erase, Valid, Projects, Exposed, Undone, Reads, Noise,
      Sidecars.YearsCanonical, Normalize, WritableDocument, Misordered, Orderable;
    var parts := Sidecars.SplitEnvelope(document, Some(root));
    if parts.Err? {
      return Err(NotSplit(parts.error)), Err(Aborted);
    }
    var split := parts.value;
    if SafeFile(document, category, root) {
      SafeNotExposed(split.document, category);
    }
    var events, projected, name, n := ToXml(split.document, category, orderer, fuel, letters);
    sent := projected;
    if events.Err? {
      return Err(events.error), sent;
    }
    ghost var chunks, tail :| Reads(events.value, chunks) && Noise(tail) && tokenize(events.value) == Flatten(chunks) + tail;
    r := FromXml(tokenize(events.value), projected.value.recovery, split.envelope, category, letters);
    if SafeFile(document, category, root) {
      SplitDocumentHasOne(document, root, split, name);
      ProjectedRoot(split.document, category, projected.value, name, Erase(n));
      NotItems(n);
      FileRoundTrip(document, category, name, split, projected.value, n, chunks, tail, letters);
    }
  }

  lemma SafeNotExposed(v: Value, category: string)
    requires XmlSafeSource(v, category)
    ensures !Exposed(v, "", category)
  {
    hide Exposed, Flat, TextStays;
  }

  lemma NotItems(n: Node)
    ensures !Erase(n).Arr? ==> !n.Items?
  {
  }
}
