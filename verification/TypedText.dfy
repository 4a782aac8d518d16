/** A text whose type the projection removes: what is projected, and why the type cannot be laid back. */
module TypedText {
  import opened Json
  import opened Pointer
  import opened XmlText
  import opened Languages
  import opened Overlay
  import opened Rules
  import opened Exposure
  import opened Projection
  import opened Adaptation
  import opened Lossless
  import opened Format
  import opened XmlRoundTrip
  import opened EndToEnd

  /** A text with a type. */
  function Typed(text: string, kind: Value): Members {
    map["@type" := kind, "#text" := Str(text)]
  }

  /** A life cycle model whose review is a text with a type. */
  function ReviewedModel(text: string, kind: Value): Value {
    Obj(map["review" := Obj(Typed(text, kind))])
  }

  // ---------- the steps on these two objects ----------

  lemma {:induction false} ReviewPointer()
    ensures Join("", Escape("review")) == "/review"
  {
    hide Escape;
    EscapePlain("review");
  }

  lemma {:induction false} ReviewPath()
    ensures IsReviewPath("/review")
  {
    SplitPlain("review");
    SplitJoin("", "review");
    assert Join("", "review") == "/review";
    assert SplitSlash("") == [""];
  }

  lemma {:induction false} RootPath()
    ensures !IsReviewPath("")
  {
    assert SplitSlash("") == [""];
  }

  /** Neither path is one at which a life cycle model is treated in another way. */
  predicate Ordinary(path: string) {
    path != MODEL_COMMENT_PATH && !EndsWith(path, "/name") && !EndsWith(path, "/dataEntryBy")
    && !EndsWith(path, "/publicationAndOwnership")
  }

  lemma {:induction false} OrdinaryPaths()
    ensures Ordinary("") && Ordinary("/review")
  {
    assert "/review"[|"/review"| - 1] == 'w';
    assert "/name"[|"/name"| - 1] == 'e' && "/dataEntryBy"[|"/dataEntryBy"| - 1] == 'y';
    assert "/publicationAndOwnership"[|"/publicationAndOwnership"| - 1] == 'p';
    assert |"/review"| != |MODEL_COMMENT_PATH|;
  }

  /** Only the three names in play, no array, and texts that are settled. */
  predicate Simple(m: Members) {
    forall k :: k in m ==>
      (k == "review" || k == "#text" || k == "@type") && !m[k].Arr?
      && (k == "review" ==> m[k].Obj?) && (k == "#text" ==> m[k].Str? && Settled(m[k].value) && m[k].value != "")
  }

  lemma {:induction false} NotAmong(k: string, names: seq<string>)
    requires k != "" && forall i :: 0 <= i < |names| ==> names[i] != "" && names[i][0] != k[0]
    ensures k !in Names(names)
  {
  }

  lemma {:induction false} OptionalOnes()
    ensures OPTIONAL_ELEMENTS == Names(["geography", "variableParameter", "common:other"])
  {
  }

  lemma {:induction false} SimpleNames(k: string)
    requires k == "review" || k == "#text" || k == "@type"
    ensures k != "" && k != "@uri"
    ensures k !in Names(MODEL_METADATA) && k !in OPTIONAL_ELEMENTS && !IsExtensionKey(k)
    ensures k != "flowProperties" && k != "compliance" && k != "common:generalComment"
  {
    assert "review"[0] == 'r' && "#text"[0] == '#' && "@type"[0] == '@';
    assert |k| >= 5 && k[0] in {'r', '#', '@'};
    hide Names;
    NotAmong(k, MODEL_METADATA);
    NotAmong(k, ["geography", "variableParameter", "common:other"]);
    OptionalOnes();
    OtherNames(k);
  }

  lemma {:induction false} OtherNames(k: string)
    requires |k| >= 5 && k[0] in {'r', '#', '@'}
    ensures k != "@uri" && !IsExtensionKey(k)
    ensures k != "flowProperties" && k != "compliance" && k != "common:generalComment"
  {
    assert "tidasimport:"[0] == 't' && "unmatched:"[0] == 'u';
    assert "flowProperties"[0] == 'f' && "compliance"[0] == 'c' && "common:generalComment"[0] == 'c';
  }

  lemma {:induction false} SimpleMerged(m: Members, path: string)
    requires Simple(m)
    ensures LanguagesMerged(UriMapped(m), path) == m
  {
    hide MayRepeat, HasRepeat, Settled, EndsWith;
    assert UriMapped(m) == m by {
      if "@uri" in m {
        SimpleNames("@uri");
      }
    }
  }

  lemma {:induction false} SimpleModel(m: Members, path: string)
    requires Simple(m) && Ordinary(path)
    ensures ModelAdapted(m, path) == if IsReviewPath(path) then m - {"@type"} else m
  {
    hide IsReviewPath, EndsWith, AllFragments, MixedText, Settled, Names;
    forall k | k in m
      ensures k !in Names(MODEL_METADATA) && k != "flowProperties" && k != "compliance"
    {
      SimpleNames(k);
    }
    assert m - Names(MODEL_METADATA) == m;
    assert ModelOmitted(path) == {};
    assert CommentProjected(m, path) == m;
    assert m - {} == m;
    assert NameMapped(m, path) == m;
  }

  lemma {:induction false} SimpleRemovals(m: Members)
    requires Simple(m)
    ensures var bound := m - ExtensionKeys(m);
      var filled := TextsProjected(bound - EmptyArrayKeys(bound));
      var texts := filled - EmptyText(filled);
      texts - EmptyOptionals(texts) == m
  {
    hide IsExtensionKey, Settled, Trim, LineEnds;
    forall k | k in m
      ensures !IsExtensionKey(k) && !IsEmptyOptional(k, m[k]) && TextProjected(k, m[k]) == m[k]
      ensures k == "#text" ==> !IsEmptyScalar(m[k])
    {
      SimpleNames(k);
      SimpleText(k, m[k]);
    }
    assert m - ExtensionKeys(m) == m;
    assert m - EmptyArrayKeys(m) == m;
    assert TextsProjected(m) == m;
    assert m - EmptyText(m) == m;
    assert m - EmptyOptionals(m) == m;
  }

  lemma {:induction false} SimpleText(k: string, v: Value)
    requires k == "review" || k == "#text" || k == "@type"
    requires k == "review" ==> v.Obj?
    requires k == "#text" ==> v.Str? && Settled(v.value) && v.value != ""
    ensures TextProjected(k, v) == v && (k == "#text" ==> !IsEmptyScalar(v))
  {
    assert "@" <= "@type";
    if k == "#text" {
      ProjectTextSettles(v.value);
      TrimSettled(v.value);
    }
  }

  /** The steps on a simple object leave it alone, but for the type of a review. */
  lemma {:induction false} SimpleShallow(m: Members, path: string)
    requires Simple(m) && Ordinary(path)
    ensures Shallow(m, path, "lifecyclemodels") == if IsReviewPath(path) then m - {"@type"} else m
  {
    SimpleMerged(m, path);
    SimpleModel(m, path);
    hide LanguagesMerged, UriMapped, ModelAdapted, IsReviewPath, ExtensionKeys, EmptyArrayKeys, TextsProjected, EmptyText, EmptyOptionals,
      Ordinary, Settled, ExchangeMapped;
    var out := if IsReviewPath(path) then m - {"@type"} else m;
    assert Simple(out) by {
      hide Shallow, CategoryAdapted;
    }
    hide Simple;
    SimpleRemovals(out);
    assert CategoryAdapted(m, path, "lifecyclemodels") == out;
  }

  lemma {:induction false} SimpleTyped(text: string, kind: Value)
    requires Settled(text) && text != "" && !Nests(kind)
    ensures Simple(Typed(text, kind)) && Typed(text, kind) - {"@type"} == map["#text" := Str(text)]
  {
    hide Settled;
  }

  lemma {:induction false} TypedShallow(text: string, kind: Value)
    requires Settled(text) && text != "" && !Nests(kind)
    ensures Shallow(Typed(text, kind), "/review", "lifecyclemodels") == map["#text" := Str(text)]
    ensures !Renames(Typed(text, kind), "/review", "lifecyclemodels")
  {
    hide Shallow, IsReviewPath, Settled, Ordinary, EndsWith, Simple, Typed, Renames;
    ReviewPath();
    OrdinaryPaths();
    SimpleTyped(text, kind);
    SimpleShallow(Typed(text, kind), "/review");
    NotRenamed(Typed(text, kind), "/review");
  }

  lemma {:induction false} ModelShallow(record: Members)
    ensures Shallow(map["review" := Obj(record)], "", "lifecyclemodels") == map["review" := Obj(record)]
    ensures !Renames(map["review" := Obj(record)], "", "lifecyclemodels")
  {
    RootPath();
    OrdinaryPaths();
    hide Shallow, IsReviewPath, Settled, Ordinary, EndsWith;
    SimpleShallow(map["review" := Obj(record)], "");
    NotRenamed(map["review" := Obj(record)], "");
  }

  lemma NotRenamed(m: Members, path: string)
    requires Ordinary(path)
    ensures !Renames(m, path, "lifecyclemodels")
  {
    hide EndsWith, IsExchangePath;
  }

  // ---------- what the projection makes of them ----------

  lemma {:induction false} TypedRemains(text: string, kind: Value)
    requires Settled(text) && text != "" && !Nests(kind)
    ensures Remains(Obj(Typed(text, kind)), "/review", "lifecyclemodels") == {"#text"}
  {
    TypedShallow(text, kind);
    hide Shallow, Settled;
    assert Typed(text, kind)["#text"] == Str(text);
  }

  lemma {:induction false} ModelRemains(record: Members)
    ensures Remains(Obj(map["review" := Obj(record)]), "", "lifecyclemodels") == {"review"}
  {
    ModelShallow(record);
    SimpleNames("review");
    hide Shallow;
  }

  /** The model keeps its review, as the projection of the review. */
  lemma {:induction false} ModelTracks(record: Members, out: Value, R: Patch)
    requires Tracks(Obj(map["review" := Obj(record)]), out, R, [], "", "lifecyclemodels")
    ensures out.Obj? && out.members.Keys == {"review"} && [] !in R
    ensures Tracks(Obj(record), out.members["review"], R, ["review"], "/review", "lifecyclemodels")
  {
    ModelShallow(record);
    ModelRemains(record);
    ReviewPointer();
    hide Shallow, Remains, Renames, Escape;
    var m: Members := map["review" := Obj(record)];
    assert Unmarked(m, "review", "", "lifecyclemodels");
    assert [] + ["review"] == ["review"];
    assert "review" in m && m["review"] == Obj(record);
  }

  lemma {:induction false} TypedUnmarked(text: string, kind: Value)
    requires Settled(text) && text != "" && !Nests(kind)
    ensures Unmarked(Typed(text, kind), "#text", "/review", "lifecyclemodels")
    ensures !Unmarked(Typed(text, kind), "@type", "/review", "lifecyclemodels")
  {
    TypedShallow(text, kind);
    hide Shallow, Settled;
    assert "#text" in Typed(text, kind) && Typed(text, kind)["#text"] == Str(text);
    assert "#text" in map["#text" := Str(text)];
  }

  /** The review keeps its bare text, and its type is in a fragment. */
  lemma {:induction false} TypedTracks(text: string, kind: Value, out: Value, R: Patch)
    requires Settled(text) && text != "" && !Nests(kind)
    requires Tracks(Obj(Typed(text, kind)), out, R, ["review"], "/review", "lifecyclemodels")
    ensures out == Obj(map["#text" := Str(text)]) && ["review", "@type"] in R && ["review"] !in R
  {
    hide Tracks, Shallow, Remains, Escape, Settled, Unmarked, Renames;
    var m := Typed(text, kind);
    TypedShallow(text, kind);
    TypedUnmarked(text, kind);
    TypedRemains(text, kind);
    TypedMembers(text, kind);
    hide Typed;
    NotRecorded(m, out, R);
    TracksMember(m, out, R, ["review"], "/review", "lifecyclemodels", "@type");
    TracksMember(m, out, R, ["review"], "/review", "lifecyclemodels", "#text");
    ScalarFollows(Str(text), out.members["#text"], R, ["review"] + ["#text"], Join("/review", Escape("#text")));
    assert ["review"] + ["@type"] == ["review", "@type"];
    assert out.members == map["#text" := Str(text)];
  }

  lemma TypedMembers(text: string, kind: Value)
    ensures var m := Typed(text, kind); "#text" in m && m["#text"] == Str(text) && "@type" in m
  {
  }

  lemma ScalarFollows(v: Value, out: Value, R: Patch, ts: Path, path: string)
    requires !Nests(v) && Tracks(v, out, R, ts, path, "lifecyclemodels")
    ensures out == v
  {
  }

  lemma NotRecorded(m: Members, out: Value, R: Patch)
    requires Tracks(Obj(m), out, R, ["review"], "/review", "lifecyclemodels") && !Renames(m, "/review", "lifecyclemodels")
    ensures ["review"] !in R
  {
    hide Shallow, Remains, Renames, Unmarked;
  }

  /** A bare text is read back as a plain string. */
  lemma {:induction false} BareText(text: string)
    requires Settled(text) && text != ""
    ensures !StaysElement(map["#text" := Str(text)])
  {
    TextKeys();
    ProjectTextSettles(text);
    hide IsChildKey, IsAttributeKey, Settled, LineEnds, Trim, CanonItems, Collapse;
    var m: Members := map["#text" := Str(text)];
    assert m["#text"] == Str(text);
    assert CanonAttributes(m) == map[] && CanonChildren(m) == map[];
  }

  /** The projection of the typed review is the bare text, with the type in a fragment. After XML the bare text is a
      plain string, and writing the type fails, as LaidBackIff says. */
  lemma {:induction false} TypedTextIsLost(text: string, kind: Value, p: ProjectedDocument)
    requires Settled(text) && text != "" && !Nests(kind)
    requires Projects(ReviewedModel(text, kind), "lifecyclemodels", p)
    ensures p.document == Obj(map["review" := Obj(map["#text" := Str(text)])])
    ensures ["review", "@type"] in Fragments(p.recovery) && [] !in Fragments(p.recovery) && ["review"] !in Fragments(p.recovery)
    ensures SetParts(CanonDocument("review", p.document.members["review"]), ["review", "@type"], kind) == Err(InvalidPath)
  {
    hide Settled, Recovers, Adapted, StaysElement, CanonElement, Tracks;
    ModelTracks(Typed(text, kind), p.document, Fragments(p.recovery));
    TypedTracks(text, kind, p.document.members["review"], Fragments(p.recovery));
    var m: Members := map["#text" := Str(text)];
    assert p.document.members == map["review" := Obj(m)];
    BareText(text);
    assert Typed(text, kind) - {"@type"} == m;
    LaidBackIff(Typed(text, kind), "@type", kind);
    assert ["review", "@type"][1..] == ["@type"];
    assert SetParts(CanonElement(Obj(m)), ["@type"], kind) == Err(InvalidPath);
  }
}
