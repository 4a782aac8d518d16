/**
 * The entity store of tidas-import: entities by type and internal id, their order of first addition, and
 * an index by external id, each kept in its own files. Hashed file names are taken as distinct.
 */
module Store {
  import opened Json

  datatype Entity = Entity(kind: string, id: string, external: Option<string>, body: Value)

  datatype StoreError = InvalidKey(value: string) | MissingOrderedEntity(id: string)

  /** What the store's directories hold. */
  datatype Contents = Contents(
    entities: map<(string, string), Entity>,
    pointers: map<(string, string), string>,
    order: map<string, seq<string>>,
    counts: map<string, nat>)

  const Empty: Contents := Contents(map[], map[], map[], map[])

  predicate IsControl(c: char) {
    c <= 0x1F as char || (0x7F as char <= c <= 0x9F as char)
  }

  ghost predicate ValidKey(s: string) {
    s != "" && |s| <= 4096 && forall i :: 0 <= i < |s| ==> !IsControl(s[i])
  }

  ghost predicate ValidFileKey(s: string) {
    ValidKey(s) && s != "." && s != ".." && forall i :: 0 <= i < |s| ==> s[i] != '/' && s[i] != '\\'
  }

  method CheckKey(s: string) returns (ok: bool)
    ensures ok <==> ValidKey(s)
  {
    if s == "" || |s| > 4096 {
      return false;
    }
    for i := 0 to |s|
      invariant forall j :: 0 <= j < i ==> !IsControl(s[j])
    {
      if IsControl(s[i]) {
        return false;
      }
    }
    ok := true;
  }

  method CheckFileKey(s: string) returns (ok: bool)
    ensures ok <==> ValidFileKey(s)
  {
    ok := CheckKey(s);
    if !ok || s == "." || s == ".." {
      return false;
    }
    for i := 0 to |s|
      invariant forall j :: 0 <= j < i ==> s[j] != '/' && s[j] != '\\'
    {
      if s[i] == '/' || s[i] == '\\' {
        return false;
      }
    }
  }

  function OrderOf(c: Contents, kind: string): seq<string> {
    if kind in c.order then c.order[kind] else []
  }

  function CountOf(c: Contents, kind: string): nat {
    if kind in c.counts then c.counts[kind] else 0
  }

  function Previous(c: Contents, e: Entity): Option<Entity> {
    if (e.kind, e.id) in c.entities then Some(c.entities[(e.kind, e.id)]) else None
  }

  /** The external id that a replaced entity gives up. */
  function GivenUp(c: Contents, e: Entity): Option<string> {
    match Previous(c, e)
    case None => None
    case Some(p) => if p.external.Some? && p.external != e.external then p.external else None
  }

  /** The store after a successful addition. */
  function Added(c: Contents, e: Entity): Contents {
    var replacing := (e.kind, e.id) in c.entities;
    var kept := match GivenUp(c, e) case None => c.pointers case Some(x) => c.pointers - {(e.kind, x)};
    Contents(
      c.entities[(e.kind, e.id) := e],
      match e.external case None => kept case Some(x) => kept[(e.kind, x) := e.id],
      if replacing then c.order else c.order[e.kind := OrderOf(c, e.kind) + [e.id]],
      if replacing then c.counts else c.counts[e.kind := CountOf(c, e.kind) + 1])
  }

  /** What an addition with an unusable external id leaves: everything but the pointer and the count. */
  function HalfAdded(c: Contents, e: Entity): Contents {
    Added(c, e.(external := None)).(
      entities := c.entities[(e.kind, e.id) := e],
      pointers := match GivenUp(c, e) case None => c.pointers case Some(x) => c.pointers - {(e.kind, x)},
      counts := c.counts)
  }

  ghost function Without(c: Contents, kind: string): Contents {
    Contents(
      map k | k in c.entities && k.0 != kind :: c.entities[k],
      map k | k in c.pointers && k.0 != kind :: c.pointers[k],
      c.order - {kind},
      c.counts - {kind})
  }

  // ---------- the insertion-ordered map it refines ----------

  /** For each type the live entities in order of first addition. */
  type Model = map<string, seq<Entity>>

  function Listed(m: Model, kind: string): seq<Entity> {
    if kind in m then m[kind] else []
  }

  function PlaceOf(es: seq<Entity>, id: string): (i: nat)
    ensures i <= |es|
    ensures i < |es| ==> es[i].id == id
    ensures forall j :: 0 <= j < i ==> es[j].id != id
  {
    if es == [] then 0 else if es[0].id == id then 0 else 1 + PlaceOf(es[1..], id)
  }

  /** A known id is replaced where it stands, a new one goes last. */
  function Upsert(es: seq<Entity>, e: Entity): seq<Entity> {
    var i := PlaceOf(es, e.id);
    if i < |es| then es[i := e] else es + [e]
  }

  datatype Op = Add(entity: Entity) | RemoveType(kind: string)

  function Applied(m: Model, op: Op): Model {
    match op
    case Add(e) => m[e.kind := Upsert(Listed(m, e.kind), e)]
    case RemoveType(kind) => m - {kind}
  }

  function Ids(es: seq<Entity>): seq<string> {
    seq(|es|, i requires 0 <= i < |es| => es[i].id)
  }

  function Find(c: Contents, kind: string, id: string): Option<Entity> {
    if (kind, id) in c.entities then Some(c.entities[(kind, id)]) else None
  }

  ghost predicate DistinctIds(es: seq<Entity>) {
    forall i, j :: 0 <= i < j < |es| ==> es[i].id != es[j].id
  }

  /** The files of one type hold exactly its list: order, entities and count. */
  ghost predicate RefinesKind(c: Contents, es: seq<Entity>, kind: string) {
    && OrderOf(c, kind) == Ids(es) && CountOf(c, kind) == |es| && DistinctIds(es)
    && (forall i :: 0 <= i < |es| ==> es[i].kind == kind && Find(c, kind, es[i].id) == Some(es[i]))
    && (forall id :: (kind, id) in c.entities ==> PlaceOf(es, id) < |es|)
  }

  ghost predicate Refines(c: Contents, m: Model) {
    forall kind :: RefinesKind(c, Listed(m, kind), kind)
  }

  lemma PlaceIs(es: seq<Entity>, i: nat)
    requires DistinctIds(es) && i < |es|
    ensures PlaceOf(es, es[i].id) == i
  {
  }

  lemma {:induction false} UpsertDistinct(es: seq<Entity>, e: Entity)
    requires DistinctIds(es)
    ensures DistinctIds(Upsert(es, e)) && PlaceOf(Upsert(es, e), e.id) == PlaceOf(es, e.id)
    ensures forall id :: PlaceOf(es, id) < |es| || id == e.id ==> PlaceOf(Upsert(es, e), id) < |Upsert(es, e)|
  {
    var i := PlaceOf(es, e.id);
    var now := Upsert(es, e);
    assert now[i] == e;
    PlaceIs(now, i);
    forall id | PlaceOf(es, id) < |es| || id == e.id
      ensures PlaceOf(now, id) < |now|
    {
      var j := if id == e.id then i else PlaceOf(es, id);
      assert now[j].id == id;
    }
  }

  lemma {:induction false} AddRefinesSame(c: Contents, es: seq<Entity>, e: Entity)
    requires RefinesKind(c, es, e.kind)
    ensures RefinesKind(Added(c, e), Upsert(es, e), e.kind)
  {
    var c1 := Added(c, e);
    var i := PlaceOf(es, e.id);
    var now := Upsert(es, e);
    UpsertDistinct(es, e);
    assert i < |es| <==> (e.kind, e.id) in c.entities by {
      if i < |es| {
        assert Find(c, e.kind, es[i].id) == Some(es[i]);
      }
    }
    forall j | 0 <= j < |now|
      ensures now[j].kind == e.kind && Find(c1, e.kind, now[j].id) == Some(now[j])
    {
      if j != i {
        assert now[j] == es[j];
        assert es[j].id != e.id;
      }
    }
    if i < |es| {
      assert es[i].id == e.id && Ids(now) == Ids(es);
    } else {
      assert Ids(now) == Ids(es) + [e.id];
    }
  }

  lemma AddRefinesOther(c: Contents, es: seq<Entity>, e: Entity, kind: string)
    requires RefinesKind(c, es, kind) && kind != e.kind
    ensures RefinesKind(Added(c, e), es, kind)
  {
    var c1 := Added(c, e);
    assert forall id :: Find(c1, kind, id) == Find(c, kind, id);
    assert OrderOf(c1, kind) == OrderOf(c, kind) && CountOf(c1, kind) == CountOf(c, kind);
  }

  lemma {:induction false} AddRefines(c: Contents, m: Model, e: Entity)
    requires Refines(c, m)
    ensures Refines(Added(c, e), Applied(m, Add(e)))
  {
    var m1 := Applied(m, Add(e));
    hide RefinesKind, Added, Upsert;
    forall kind
      ensures RefinesKind(Added(c, e), Listed(m1, kind), kind)
    {
      assert RefinesKind(c, Listed(m, kind), kind);
      if kind == e.kind {
        AddRefinesSame(c, Listed(m, kind), e);
      } else {
        AddRefinesOther(c, Listed(m, kind), e, kind);
      }
    }
  }

  lemma {:induction false} RemoveRefines(c: Contents, m: Model, kind: string)
    requires Refines(c, m)
    ensures Refines(Without(c, kind), Applied(m, RemoveType(kind)))
  {
    var c1, m1 := Without(c, kind), Applied(m, RemoveType(kind));
    forall other
      ensures RefinesKind(c1, Listed(m1, other), other)
    {
      assert RefinesKind(c, Listed(m, other), other);
      if other != kind {
        assert Listed(m1, other) == Listed(m, other);
        assert forall id :: Find(c1, other, id) == Find(c, other, id);
      }
    }
  }

  // ---------- the index by external id ----------

  /** Every pointer leads to a live entity that carries its external id. */
  ghost predicate PointersLead(c: Contents) {
    forall k :: k in c.pointers ==>
      ValidKey(k.1) && var e := Find(c, k.0, c.pointers[k]); e.Some? && e.value.external == Some(k.1)
  }

  /** The external id of a live entity other than the one with `id`. */
  ghost predicate CarriedElsewhere(c: Contents, kind: string, id: string, x: string) {
    exists other :: other != id && Find(c, kind, other).Some? && Find(c, kind, other).value.external == Some(x)
  }

  /** Every entity whose external id was never shared is found by it. */
  ghost predicate LookupComplete(c: Contents, shared: set<(string, string)>) {
    forall kind, id, x :: Find(c, kind, id).Some? && Find(c, kind, id).value.external == Some(x) && (kind, x) !in shared ==>
      (kind, x) in c.pointers && c.pointers[(kind, x)] == id
  }

  /** The external ids that two live entities of a type have ever had at once. */
  ghost function SharedAfter(c: Contents, shared: set<(string, string)>, e: Entity): set<(string, string)> {
    if e.external.Some? && CarriedElsewhere(c, e.kind, e.id, e.external.value) then
      shared + {(e.kind, e.external.value)}
    else shared
  }

  lemma {:induction false} AddPointers(c: Contents, e: Entity)
    requires PointersLead(c) && (e.external.Some? ==> ValidKey(e.external.value))
    ensures PointersLead(Added(c, e))
  {
    hide ValidKey;
    var c1 := Added(c, e);
    forall k | k in c1.pointers
      ensures ValidKey(k.1) && var f := Find(c1, k.0, c1.pointers[k]); f.Some? && f.value.external == Some(k.1)
    {
      if e.external == Some(k.1) && k.0 == e.kind {
        assert c1.pointers[k] == e.id;
      } else {
        assert k in c.pointers && c1.pointers[k] == c.pointers[k];
        assert Find(c, k.0, c.pointers[k]).value.external == Some(k.1);
      }
    }
  }

  lemma {:induction false} AddComplete(c: Contents, shared: set<(string, string)>, e: Entity)
    requires PointersLead(c) && LookupComplete(c, shared)
    ensures LookupComplete(Added(c, e), SharedAfter(c, shared, e))
  {
    hide ValidKey;
    var c1, shared1 := Added(c, e), SharedAfter(c, shared, e);
    forall kind, id, x | Find(c1, kind, id).Some? && Find(c1, kind, id).value.external == Some(x) && (kind, x) !in shared1
      ensures (kind, x) in c1.pointers && c1.pointers[(kind, x)] == id
    {
      if kind != e.kind || id != e.id {
        assert Find(c, kind, id) == Find(c1, kind, id);
        assert c.pointers[(kind, x)] == id;
        if kind == e.kind {
          assert e.external == Some(x) ==> CarriedElsewhere(c, kind, e.id, x);
          assert GivenUp(c, e) == Some(x) ==> Find(c, kind, e.id).Some?;
        }
      }
    }
  }

  // ---------- whole histories ----------

  ghost function Stepped(c: Contents, op: Op): Contents {
    match op
    case Add(e) => Added(c, e)
    case RemoveType(kind) => Without(c, kind)
  }

  ghost predicate Succeeds(op: Op) {
    match op
    case Add(e) => ValidFileKey(e.kind) && ValidFileKey(e.id) && (e.external.Some? ==> ValidKey(e.external.value))
    case RemoveType(kind) => ValidFileKey(kind)
  }

  ghost function StoreAfter(ops: seq<Op>): Contents {
    if ops == [] then Empty else Stepped(StoreAfter(ops[..|ops| - 1]), ops[|ops| - 1])
  }

  function ModelAfter(ops: seq<Op>): Model {
    if ops == [] then map[] else Applied(ModelAfter(ops[..|ops| - 1]), ops[|ops| - 1])
  }

  ghost function SharedBy(ops: seq<Op>): set<(string, string)> {
    if ops == [] then {}
    else
      var before := ops[..|ops| - 1];
      match ops[|ops| - 1]
      case Add(e) => SharedAfter(StoreAfter(before), SharedBy(before), e)
      case RemoveType(kind) => set k | k in SharedBy(before) && k.0 != kind
  }

  lemma {:induction false} RemovePointers(c: Contents, shared: set<(string, string)>, kind: string)
    requires PointersLead(c) && LookupComplete(c, shared)
    ensures PointersLead(Without(c, kind))
    ensures LookupComplete(Without(c, kind), set k | k in shared && k.0 != kind)
  {
    hide ValidKey;
    var c1 := Without(c, kind);
    assert forall other, id :: other != kind ==> Find(c1, other, id) == Find(c, other, id);
    assert forall id :: Find(c1, kind, id).None?;
  }

  /** After any successful additions and removals the store is the insertion-ordered map of the same history. */
  lemma {:induction false} HistoryRefines(ops: seq<Op>)
    requires forall i :: 0 <= i < |ops| ==> Succeeds(ops[i])
    ensures Refines(StoreAfter(ops), ModelAfter(ops))
    ensures PointersLead(StoreAfter(ops)) && LookupComplete(StoreAfter(ops), SharedBy(ops))
  {
    if ops != [] {
      var before, op := ops[..|ops| - 1], ops[|ops| - 1];
      HistoryRefines(before);
      hide Refines, PointersLead, LookupComplete, ValidKey, ValidFileKey, Added, Without;
      match op
      case Add(e) =>
        AddRefines(StoreAfter(before), ModelAfter(before), e);
        AddPointers(StoreAfter(before), e);
        AddComplete(StoreAfter(before), SharedBy(before), e);
      case RemoveType(kind) =>
        RemoveRefines(StoreAfter(before), ModelAfter(before), kind);
        RemovePointers(StoreAfter(before), SharedBy(before), kind);
    }
  }

  /** What a lookup by external id finds. */
  function ByExternalId(c: Contents, kind: string, x: string): Option<Entity> {
    if (kind, x) in c.pointers then Find(c, kind, c.pointers[(kind, x)]) else None
  }

  /** A lookup finds only entities with that external id, and finds the one there is if it was never shared. */
  lemma {:induction false} LookupAfter(ops: seq<Op>, kind: string, x: string)
    requires forall i :: 0 <= i < |ops| ==> Succeeds(ops[i])
    ensures var r := ByExternalId(StoreAfter(ops), kind, x);
            && (r.Some? ==> r.value in Listed(ModelAfter(ops), kind) && r.value.external == Some(x))
            && ((kind, x) !in SharedBy(ops) ==>
                  forall e :: e in Listed(ModelAfter(ops), kind) && e.external == Some(x) ==> r == Some(e))
  {
    HistoryRefines(ops);
    hide StoreAfter, ModelAfter, SharedBy;
    var c, es := StoreAfter(ops), Listed(ModelAfter(ops), kind);
    assert RefinesKind(c, es, kind);
    var r := ByExternalId(c, kind, x);
    if r.Some? {
      var id := c.pointers[(kind, x)];
      assert Find(c, kind, es[PlaceOf(es, id)].id) == Some(es[PlaceOf(es, id)]);
    }
    forall e | e in es && e.external == Some(x) && (kind, x) !in SharedBy(ops)
      ensures r == Some(e)
    {
      var i :| 0 <= i < |es| && es[i] == e;
      assert Find(c, kind, e.id) == Some(e);
    }
  }

  /**
   * One addition takes away the way to a live entity exactly when it gives up an external id that the
   * entity carries as well and that the index led to.
   */
  lemma {:induction false} LookupLostIff(c: Contents, e: Entity, other: Entity, x: string)
    requires PointersLead(c) && Find(c, e.kind, other.id) == Some(other) && other.id != e.id
    requires other.kind == e.kind && other.external == Some(x) && ByExternalId(c, e.kind, x).Some?
    ensures ByExternalId(Added(c, e), e.kind, x).None? <==> GivenUp(c, e) == Some(x)
  {
    var c1 := Added(c, e);
    assert (e.kind, x) in c.pointers;
    if GivenUp(c, e) == Some(x) {
      assert e.external != Some(x);
      assert (e.kind, x) !in c1.pointers;
    } else {
      assert (e.kind, x) in c1.pointers;
    }
  }

  // ---------- the store at work ----------

  class CanonicalStore {
    var entities: map<(string, string), Entity>
    var pointers: map<(string, string), string>
    var order: map<string, seq<string>>
    var counts: map<string, nat>

    function Holds(): Contents
      reads this
    {
      Contents(entities, pointers, order, counts)
    }

    constructor ()
      ensures Holds() == Empty
    {
      entities, pointers, order, counts := map[], map[], map[], map[];
    }

    /** Removes the pointer of the external id that a replaced entity gives up. */
    method DropStalePointer(e: Entity, previous: Option<Entity>)
      modifies this`pointers
      ensures pointers == if previous.Some? && previous.value.external.Some? && previous.value.external != e.external
                          then old(pointers) - {(e.kind, previous.value.external.value)} else old(pointers)
    {
      if previous.Some? && previous.value.external.Some? && previous.value.external != e.external {
        var stale := (e.kind, previous.value.external.value);
        if stale in pointers {
          pointers := pointers - {stale};
        }
      }
    }

    /**
     * Adds or replaces an entity. Unusable keys are refused at once; an unusable external id only once the
     * entity is written.
     */
    method Add(e: Entity) returns (r: Result<bool, StoreError>)
      modifies this
      ensures r.Ok? <==> Succeeds(Op.Add(e))
      ensures r.Err? ==> r == Err(InvalidKey(
                if !ValidFileKey(e.kind) then e.kind else if !ValidFileKey(e.id) then e.id else e.external.value))
      ensures Holds() == if Succeeds(Op.Add(e)) then Added(old(Holds()), e)
                         else if ValidFileKey(e.kind) && ValidFileKey(e.id) then HalfAdded(old(Holds()), e)
                         else old(Holds())
    {
      hide ValidKey, ValidFileKey;
      var ok := CheckFileKey(e.kind);
      if !ok {
        return Err(InvalidKey(e.kind));
      }
      ok := CheckFileKey(e.id);
      if !ok {
        return Err(InvalidKey(e.id));
      }
      var place := (e.kind, e.id);
      var replacing := place in entities;
      var previous := if replacing then Some(entities[place]) else None;
      entities := entities[place := e];
      if !replacing {
        order := order[e.kind := OrderOf(Holds(), e.kind) + [e.id]];
      }
      DropStalePointer(e, previous);
      if e.external.Some? {
        ok := CheckKey(e.external.value);
        if !ok {
          return Err(InvalidKey(e.external.value));
        }
        pointers := pointers[(e.kind, e.external.value) := e.id];
      }
      if !replacing {
        counts := counts[e.kind := CountOf(Holds(), e.kind) + 1];
      }
      r := Ok(true);
    }

    method Get(kind: string, id: string) returns (r: Result<Option<Entity>, StoreError>)
      ensures r.Ok? <==> ValidFileKey(kind) && ValidFileKey(id)
      ensures r.Ok? ==> r.value == Find(Holds(), kind, id)
      ensures r.Err? ==> r == Err(InvalidKey(if !ValidFileKey(kind) then kind else id))
    {
      var ok := CheckFileKey(kind);
      if !ok {
        return Err(InvalidKey(kind));
      }
      ok := CheckFileKey(id);
      if !ok {
        return Err(InvalidKey(id));
      }
      r := Ok(if (kind, id) in entities then Some(entities[(kind, id)]) else None);
    }

    method RemoveType(kind: string) returns (r: Result<bool, StoreError>)
      modifies this
      ensures r.Ok? <==> ValidFileKey(kind)
      ensures r.Err? ==> r == Err(InvalidKey(kind))
      ensures Holds() == if ValidFileKey(kind) then Without(old(Holds()), kind) else old(Holds())
    {
      var ok := CheckFileKey(kind);
      if !ok {
        return Err(InvalidKey(kind));
      }
      entities := map k | k in entities && k.0 != kind :: entities[k];
      pointers := map k | k in pointers && k.0 != kind :: pointers[k];
      order := order - {kind};
      counts := counts - {kind};
      r := Ok(true);
    }

    /** Reads the entities of a type in the recorded order, up to the first that cannot be read. */
    method IterType(kind: string) returns (r: Result<seq<Entity>, StoreError>)
      ensures r == if ValidFileKey(kind) then Iterated(Holds(), kind, |OrderOf(Holds(), kind)|) else Err(InvalidKey(kind))
    {
      hide ValidFileKey;
      var ok := CheckFileKey(kind);
      if !ok {
        return Err(InvalidKey(kind));
      }
      var lines := OrderOf(Holds(), kind);
      var out: seq<Entity> := [];
      for i := 0 to |lines|
        invariant Iterated(Holds(), kind, i) == Ok(out)
      {
        var entity := Get(kind, lines[i]);
        if entity.Err? || entity.value.None? {
          IterationStops(Holds(), kind, i + 1, |lines|);
          return Err(if entity.Err? then InvalidKey(lines[i]) else MissingOrderedEntity(lines[i]));
        }
        out := out + [entity.value.value];
      }
      r := Ok(out);
    }
  }

  ghost function Iterated(c: Contents, kind: string, n: nat): Result<seq<Entity>, StoreError>
    requires n <= |OrderOf(c, kind)|
  {
    if n == 0 then Ok([])
    else
      match Iterated(c, kind, n - 1)
      case Err(e) => Err(e)
      case Ok(before) =>
        var id := OrderOf(c, kind)[n - 1];
        if !ValidFileKey(id) then Err(InvalidKey(id))
        else
          match Find(c, kind, id)
          case None => Err(MissingOrderedEntity(id))
          case Some(e) => Ok(before + [e])
  }

  lemma {:induction false} IterationStops(c: Contents, kind: string, n: nat, m: nat)
    requires n <= m <= |OrderOf(c, kind)| && Iterated(c, kind, n).Err?
    ensures Iterated(c, kind, m) == Err(Iterated(c, kind, n).error)
  {
    if n < m {
      IterationStops(c, kind, n, m - 1);
    }
  }

  /** One more entity read of a list that the store holds. */
  lemma {:induction false} IterationStep(c: Contents, es: seq<Entity>, kind: string, n: nat)
    requires RefinesKind(c, es, kind) && n < |es|
    requires ValidFileKey(es[n].id) && Iterated(c, kind, n) == Ok(es[..n])
    ensures n < |OrderOf(c, kind)| && Iterated(c, kind, n + 1) == Ok(es[..n + 1])
  {
    hide ValidFileKey, DistinctIds, PlaceOf, CountOf;
    assert OrderOf(c, kind)[n] == es[n].id && Find(c, kind, es[n].id) == Some(es[n]);
    assert es[..n + 1] == es[..n] + [es[n]];
  }

  /** After any history of successful operations, iteration yields each live entity once in first-add order. */
  lemma {:induction false} IterationAfter(ops: seq<Op>, kind: string, n: nat)
    requires forall i :: 0 <= i < |ops| ==> Succeeds(ops[i])
    requires n <= |OrderOf(StoreAfter(ops), kind)|
    ensures |OrderOf(StoreAfter(ops), kind)| == |Listed(ModelAfter(ops), kind)|
    ensures Iterated(StoreAfter(ops), kind, n) == Ok(Listed(ModelAfter(ops), kind)[..n])
  {
    hide StoreAfter, ModelAfter, ValidFileKey, PointersLead, LookupComplete, Iterated;
    HistoryRefines(ops);
    var c, es := StoreAfter(ops), Listed(ModelAfter(ops), kind);
    assert RefinesKind(c, es, kind);
    hide Refines, RefinesKind;
    ListedOrder(c, es, kind);
    if n == 0 {
      NoneIterated(c, kind);
    } else {
      IterationAfter(ops, kind, n - 1);
      ListedKeys(ops, kind, n - 1);
      IterationStep(c, es, kind, n - 1);
    }
  }

  lemma NoneIterated(c: Contents, kind: string)
    ensures Iterated(c, kind, 0) == Ok([])
  {
  }

  lemma ListedOrder(c: Contents, es: seq<Entity>, kind: string)
    requires RefinesKind(c, es, kind)
    ensures |OrderOf(c, kind)| == |es|
  {
  }

  lemma {:induction false} ListedKeys(ops: seq<Op>, kind: string, i: nat)
    requires forall j :: 0 <= j < |ops| ==> Succeeds(ops[j])
    requires i < |Listed(ModelAfter(ops), kind)|
    ensures ValidFileKey(Listed(ModelAfter(ops), kind)[i].id)
  {
    var before, op := ops[..|ops| - 1], ops[|ops| - 1];
    hide ValidFileKey, ValidKey;
    match op
    case Add(e) =>
      if kind != e.kind || i != PlaceOf(Listed(ModelAfter(before), kind), e.id) {
        ListedKeys(before, kind, i);
      }
    case RemoveType(_) =>
      ListedKeys(before, kind, i);
  }

  /** An entity refused for its external id is live and iterated all the same. The count still matches the order
      list exactly when the entity replaced another one; a new one is listed and not counted. */
  lemma RefusedExternalIdIsNotCounted(c: Contents, m: Model, e: Entity)
    requires Refines(c, m)
    ensures Find(HalfAdded(c, e), e.kind, e.id) == Some(e)
    ensures |OrderOf(HalfAdded(c, e), e.kind)| == CountOf(HalfAdded(c, e), e.kind) <==> Find(c, e.kind, e.id).Some?
    ensures Find(c, e.kind, e.id) == None ==> |OrderOf(HalfAdded(c, e), e.kind)| == CountOf(HalfAdded(c, e), e.kind) + 1
  {
    assert RefinesKind(c, Listed(m, e.kind), e.kind);
  }

  /** Nothing of another type is different. */
  ghost predicate SameFor(kind: string, a: Contents, b: Contents) {
    && (forall id :: Find(a, kind, id) == Find(b, kind, id))
    && OrderOf(a, kind) == OrderOf(b, kind) && CountOf(a, kind) == CountOf(b, kind)
    && (forall x :: ((kind, x) in a.pointers <==> (kind, x) in b.pointers) &&
                    ((kind, x) in a.pointers ==> a.pointers[(kind, x)] == b.pointers[(kind, x)]))
  }

  /** An addition, refused or not, and a removal leave the other types alone. */
  lemma {:induction false} OtherTypesStay(c: Contents, e: Entity, kind: string)
    requires kind != e.kind
    ensures SameFor(kind, Added(c, e), c) && SameFor(kind, HalfAdded(c, e), c) && SameFor(kind, Without(c, e.kind), c)
  {
    AddedElsewhere(c, e, kind);
    AddedElsewhere(c, e.(external := None), kind);
    RemovedElsewhere(c, e.kind, kind);
    hide Added, Without, GivenUp;
    var half := Added(c, e.(external := None));
    assert HalfAdded(c, e).order == half.order && HalfAdded(c, e).counts == c.counts;
  }

  lemma AddedElsewhere(c: Contents, e: Entity, kind: string)
    requires kind != e.kind
    ensures SameFor(kind, Added(c, e), c)
  {
  }

  lemma RemovedElsewhere(c: Contents, removed: string, kind: string)
    requires kind != removed
    ensures SameFor(kind, Without(c, removed), c)
  {
  }

  /** A refused addition takes away the way by the external id that the replaced entity carried, and no other. */
  lemma {:induction false} RefusedPointers(c: Contents, e: Entity, kind: string, x: string)
    requires PointersLead(c) && e.external.Some? && !ValidKey(e.external.value)
    ensures var after := HalfAdded(c, e).pointers;
            && ((kind, x) in after <==>
                  (kind, x) in c.pointers && !(kind == e.kind && Previous(c, e).Some? && Previous(c, e).value.external == Some(x)))
            && ((kind, x) in after ==> after[(kind, x)] == c.pointers[(kind, x)])
    ensures PointersLead(HalfAdded(c, e))
  {
    hide ValidKey;
    var after := HalfAdded(c, e).pointers;
    forall k | k in after
      ensures ValidKey(k.1) && var f := Find(HalfAdded(c, e), k.0, after[k]); f.Some? && f.value.external == Some(k.1)
    {
      assert k in c.pointers && after[k] == c.pointers[k];
      assert Find(c, k.0, c.pointers[k]).value.external == Some(k.1);
    }
    assert (kind, x) in c.pointers ==> ValidKey(x);
  }

  /** The empty text is no external id, so this addition to an empty store is refused, with one entity listed
      and none counted. */
  lemma {:induction false} EmptyExternalIdIsRefused(e: Entity)
    requires ValidFileKey(e.kind) && ValidFileKey(e.id) && e.external == Some("")
    ensures !Succeeds(Add(e))
    ensures OrderOf(HalfAdded(Empty, e), e.kind) == [e.id] && CountOf(HalfAdded(Empty, e), e.kind) == 0
  {
  }

  /**
   * Two live entities share an external id; the first is replaced under another one. The second still
   * carries the shared id, but looking it up finds nothing.
   */
  lemma {:induction false} SharedIdIsLost()
    ensures var first, second := Entity("flow", "a", Some("x"), Null), Entity("flow", "b", Some("x"), Null);
            var c := Added(Added(Added(Empty, first), second), first.(external := Some("y")));
            Find(c, "flow", "b") == Some(second) && ByExternalId(c, "flow", "x") == None
  {
    assert "a"[0] != "b"[0] && "x"[0] != "y"[0];
    var first, second := Entity("flow", "a", Some("x"), Null), Entity("flow", "b", Some("x"), Null);
    var c1 := Added(Empty, first);
    var c2 := Added(c1, second);
    assert Previous(c2, first) == Some(first);
  }
}
