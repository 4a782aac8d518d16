/** Projecting a TIDAS document and restoring it from its recovery contract. */
module Lossless {
  import opened Json
  import opened Pointer
  import opened Overlay
  import opened Recovery
  import opened Damage
  import opened Steps
  import opened Rules
  import opened Surface
  import opened Provenance
  import opened Exposure
  import opened Projection
  import opened Adaptation

  const RECOVERY_SCHEMA := "tidas.eilcd-projection-recovery.v1"

  /** The recovery contract. The digest stands for the SHA-256 of the normalized source, taken to be injective. */
  datatype RecoveryContract = RecoveryContract(
    schemaVersion: string,
    sourceDigest: Value,
    adaptations: map<string, nat>,
    restorations: seq<Restoration>)

  datatype ProjectedDocument = ProjectedDocument(document: Value, recovery: Option<RecoveryContract>)

  /** Laying one recorded fragment into another failed, and the source aborts. */
  datatype ProjectionError = Aborted

  datatype RestoreError =
    | UnsupportedRecovery(version: string)
    | RecoveryPath
    | RecoveryMismatch(expected: Value, actual: Value)

  function SemanticDigest(v: Value): Value {
    Normalize(v, "")
  }

  lemma {:induction false} DepthOf(v: Value) returns (d: nat)
    ensures Within(v, d)
    decreases v
  {
    d := 1;
    match v
    case Obj(m) =>
      var rest := m.Keys;
      while rest != {}
        invariant rest <= m.Keys && d > 0
        invariant forall k :: k in m && k !in rest ==> Within(m[k], d - 1)
        decreases |rest|
      {
        var k :| k in rest;
        var e := DepthOf(m[k]);
        var next := if e + 1 > d then e + 1 else d;
        DeeperBy(m[k], e, next - 1);
        forall j | j in m && j !in rest
          ensures Within(m[j], next - 1)
        {
          DeeperBy(m[j], d - 1, next - 1);
        }
        d, rest := next, rest - {k};
      }
    case Arr(items) =>
      for i := 0 to |items|
        invariant forall j :: 0 <= j < i ==> Within(items[j], d)
      {
        var e := DepthOf(items[i]);
        var next := if e > d then e else d;
        DeeperBy(items[i], e, next);
        forall j | 0 <= j < i
          ensures Within(items[j], next)
        {
          DeeperBy(items[j], d, next);
        }
        d := next;
      }
    case _ =>
  }

  /** What restore_tidas_projection makes of a document. */
  function Restored(document: Value, recovery: RecoveryContract): Result<Value, RestoreError> {
    if recovery.schemaVersion != RECOVERY_SCHEMA then Err(UnsupportedRecovery(recovery.schemaVersion))
    else
      match RestoreFrom(document, recovery.restorations, 0)
      case Err(_) => Err(RecoveryPath)
      case Ok(out) =>
        if SemanticDigest(out) != recovery.sourceDigest
        then Err(RecoveryMismatch(recovery.sourceDigest, SemanticDigest(out)))
        else Ok(out)
  }

  method RestoreTidasProjection(document: Value, recovery: RecoveryContract) returns (r: Result<Value, RestoreError>)
    ensures r == Restored(document, recovery)
    ensures recovery.schemaVersion != RECOVERY_SCHEMA <==> r == Err(UnsupportedRecovery(recovery.schemaVersion))
    ensures recovery.schemaVersion == RECOVERY_SCHEMA ==>
              match RestoreFrom(document, recovery.restorations, 0)
              case Err(_) => r == Err(RecoveryPath)
              case Ok(out) =>
                && (r.Ok? <==> SemanticDigest(out) == recovery.sourceDigest)
                && (r.Ok? ==> r.value == out)
                && (r.Err? ==> r == Err(RecoveryMismatch(recovery.sourceDigest, SemanticDigest(out))))
  {
    if recovery.schemaVersion != RECOVERY_SCHEMA {
      return Err(UnsupportedRecovery(recovery.schemaVersion));
    }
    var written := RestoreAll(document, recovery.restorations);
    match written
    case Err(_) => r := Err(RecoveryPath);
    case Ok(out) =>
      var actual := SemanticDigest(out);
      if actual != recovery.sourceDigest {
        r := Err(RecoveryMismatch(recovery.sourceDigest, actual));
      } else {
        r := Ok(out);
      }
  }

  /** A recovery contract keeps everything the projection of `source` changed. */
  ghost predicate Recovers(projected: Value, recovery: Option<RecoveryContract>, source: Value) {
    match recovery
    case None => projected == source
    case Some(contract) =>
      contract.schemaVersion == RECOVERY_SCHEMA
      && contract.sourceDigest == SemanticDigest(source)
      && Separate(contract.restorations) && SortedByPath(contract.restorations)
      && Fits(projected, PatchOf(contract.restorations), [])
      && Overlaid(projected, PatchOf(contract.restorations), []) == source
  }

  /** The fragments of a projection, none when it changed nothing. */
  ghost function Fragments(recovery: Option<RecoveryContract>): Patch {
    match recovery
    case None => map[]
    case Some(contract) => PatchOf(contract.restorations)
  }

  /** A document with its contract applied; without a contract there is nothing to undo. */
  function Recovered(document: Value, recovery: Option<RecoveryContract>): Result<Value, RestoreError> {
    match recovery
    case None => Ok(document)
    case Some(contract) => Restored(document, contract)
  }

  /** The projection ended, and undoing it gives back exactly the source. */
  predicate Undone(r: Result<ProjectedDocument, ProjectionError>, source: Value) {
    r.Ok? && Recovered(r.value.document, r.value.recovery) == Ok(source)
  }

  /** What projecting a document that exposes nothing promises. */
  ghost predicate Projects(source: Value, category: string, p: ProjectedDocument) {
    Adapted(source, p.document, "", category)
    && Tracks(source, p.document, Fragments(p.recovery), [], "", category)
    && Recovers(p.document, p.recovery, source)
  }

  /** Projects a document of any category. What comes out is on the surface of that category; the source says which
      members are left and which are recorded; and the projection is undone exactly when the source exposes no empty
      array named "0". */
  method ProjectTidasToEilcd(document: Value, category: string) returns (r: Result<ProjectedDocument, ProjectionError>)
    ensures Undone(r, document) <==> !Exposed(document, "", category)
    ensures !Exposed(document, "", category) ==> r.Ok? && Projects(document, category, r.value)
    ensures r.Ok? ==> Adapted(document, r.value.document, "", category)
    ensures r.Ok? ==> Corresponds(document, r.value.document, "", category)
    ensures r.Ok? ==> Tracks(document, r.value.document, Fragments(r.value.recovery), [], "", category)
  {
    hide OnSurface, Overlay.Overlaid, Overlay.Fits, Within, HasElement, Exposed, Tracks, Adapted, Passed, Recovers, RestoreFrom,
      PatchOf, Held, Overlay.Covered, Landing, NonNested, Fresh, Separate, SortedByPath, Shows, ZeroAt, Restored, Corresponds;
    ghost var d := DepthOf(document);
    var builder := new RecoveryBuilder();
    NothingRecorded();
    var projected := AdaptValue(document, "", [], category, builder, d);
    WholeDocument(document, projected, builder.State(), Exposed(document, "", category));
    if builder.aborted {
      return Err(Aborted);
    }
    var p := ProjectedDocument(projected, None);
    if builder.restorations != [] {
      var contract := RecoveryContract(RECOVERY_SCHEMA, SemanticDigest(document), builder.adaptations, builder.restorations);
      p := ProjectedDocument(projected, Some(contract));
    }
    NoFragments(builder.restorations);
    AdaptedCorresponds(document, projected, category);
    if Exposed(document, "", category) {
      LostForGood(document, projected, builder.restorations, p.recovery);
    } else {
      NothingLost(document, projected, builder.restorations, p.recovery);
    }
    r := Ok(p);
  }

  lemma AdaptedCorresponds(v: Value, out: Value, category: string)
    requires Adapted(v, out, "", category)
    ensures Corresponds(v, out, "", category)
  {
  }

  lemma NoFragments(rs: seq<Restoration>)
    ensures rs == [] ==> PatchOf(rs) == map[]
  {
  }

  lemma {:induction false} NothingRecorded()
    ensures Fresh(Log(map[], false), []) && !Held(map[], []) && !Covered(map[], [])
  {
  }

  /** At the root no fragment lies above. */
  lemma {:induction false} WholeDocument(document: Value, projected: Value, L: Log, lost: bool)
    requires Passed(document, Log(map[], false), projected, L, [], lost)
    ensures NonNested(L.fragments) && Landing(projected, L.fragments, []) && !Covered(L.fragments, [])
    ensures lost ==> exists z :: ZeroAt(document, z) && !Shows(projected, L.fragments, [], z)
    ensures !lost ==> !L.aborted && Fits(projected, L.fragments, []) && Overlaid(projected, L.fragments, []) == document
  {
    forall p | p in L.fragments
      ensures !(p < [])
    {
    }
    ClearOverlay(document, map[], []);
    if lost {
      var z :| Shows(document, map[], [], z) && !Shows(projected, L.fragments, [], z);
      ClearShows(document, map[], [], z);
    }
  }

  /** The contract of a projection that laid its fragments down. */
  ghost predicate ContractOf(recovery: Option<RecoveryContract>, rs: seq<Restoration>, source: Value) {
    match recovery
    case None => rs == []
    case Some(contract) =>
      contract.schemaVersion == RECOVERY_SCHEMA && contract.sourceDigest == SemanticDigest(source) && contract.restorations == rs
  }

  /** A member "0" that the fragments do not show does not come back. */
  lemma {:induction false} LostForGood(document: Value, projected: Value, rs: seq<Restoration>, recovery: Option<RecoveryContract>)
    requires Separate(rs) && Landing(projected, PatchOf(rs), []) && ContractOf(recovery, rs, document)
    requires exists z :: ZeroAt(document, z) && !Shows(projected, PatchOf(rs), [], z)
    ensures Recovered(projected, recovery) != Ok(document)
  {
    var z :| ZeroAt(document, z) && !Shows(projected, PatchOf(rs), [], z);
    if recovery.None? {
      ClearShows(projected, PatchOf(rs), [], z);
    } else {
      RestoredFrom(projected, recovery.value);
      if RestoreFrom(projected, rs, 0).Ok? {
        RestoreShows(projected, rs, 0, z);
      }
    }
    hide Separate, Landing, ZeroAt, Shows, RestoreFrom, Restored, SemanticDigest;
  }

  lemma RestoredFrom(document: Value, recovery: RecoveryContract)
    ensures Restored(document, recovery).Ok? ==>
              RestoreFrom(document, recovery.restorations, 0) == Ok(Restored(document, recovery).value)
  {
    hide RestoreFrom, SemanticDigest;
  }

  lemma {:induction false} NothingLost(document: Value, projected: Value, rs: seq<Restoration>, recovery: Option<RecoveryContract>)
    requires Separate(rs) && SortedByPath(rs) && ContractOf(recovery, rs, document)
    requires Fits(projected, PatchOf(rs), []) && Overlaid(projected, PatchOf(rs), []) == document
    ensures Recovered(projected, recovery) == Ok(document) && Recovers(projected, recovery, document)
  {
    match recovery
    case None => ClearOverlay(projected, PatchOf(rs), []);
    case Some(contract) => RestoreIsOverlay(projected, rs);
  }

  // ---------- a document that is not recovered ----------

  /** An empty array named "0" in an object that nothing records is exposed, in every category. */
  lemma {:induction false} ZeroIsExposed(category: string)
    ensures Exposed(Obj(map["0" := Arr([])]), "", category)
  {
    var m: Members := map["0" := Arr([])];
    assert m["0"] == Arr([]);
    assert "0" in m && "flowProperties" !in m && "timeRepresentativenessDescription" !in m && "referenceToDataSource" !in m;
  }

  /** So the projection of this document is never undone. */
  method ZeroNamedEmptyArrayIsLost(category: string) returns (r: Result<ProjectedDocument, ProjectionError>)
    ensures !Undone(r, Obj(map["0" := Arr([])]))
  {
    ZeroIsExposed(category);
    r := ProjectTidasToEilcd(Obj(map["0" := Arr([])]), category);
  }
}
