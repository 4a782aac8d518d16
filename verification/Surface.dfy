/** The eILCD surface: what every object of a projected document satisfies. */
module Surface {
  import opened Json
  import opened Pointer
  import opened XmlText
  import opened Languages
  import opened Rules

  /** Member names the target format does not bind at this place. */
  predicate Unbound(key: string, path: string, category: string) {
    IsExtensionKey(key) || UnboundInCategory(key, path, category)
  }

  predicate UnboundInCategory(key: string, path: string, category: string) {
    match category
    case "processes" =>
      key in PROCESS_EXTENSIONS
      || (IsExchangePath(path) && key in ["quantitativeReference", "referenceToDataSource"])
      || (IsTimePath(path) && key == "timeRepresentativenessDescription")
    case "flows" =>
      key in FLOW_EXTENSIONS
      || (EndsWith(path, "/modellingAndValidation") && key == "validation")
      || (EndsWith(path, "/publicationAndOwnership") && key in FLOW_PUBLICATION)
      || (EndsWith(path, "/dataSetInformation") && key == "common:shortName")
    case "lciamethods" => key in METHOD_METADATA
    case "lifecyclemodels" =>
      key in MODEL_METADATA
      || (EndsWith(path, "/dataEntryBy") && key in MODEL_SOURCES)
      || (EndsWith(path, "/publicationAndOwnership") && key in MODEL_AUTHORITIES)
      || (EndsWith(path, "/name") && key == "flowProperties")
      || (IsReviewPath(path) && key == "@type")
    case "sources" => key in SOURCE_METADATA
    case _ => false
  }

  /** Arrays whose fragments need not have distinct languages. */
  predicate MayKeepLanguages(key: string, path: string, category: string) {
    MayRepeat(path, key) || (category == "lifecyclemodels" && key == "compliance")
  }

  /** What one member satisfies, apart from empty optional elements. */
  predicate MemberFits(key: string, v: Value, path: string, category: string) {
    v != Arr([])
    && (v.Str? && !("@" <= key) ==> Settled(v.value))
    && (key == "#text" ==> !IsEmptyScalar(v))
    && (key == "#text" && v.Str? && TakesShortText(path) && category in ["processes", "flows"] ==> |v.value| <= 500)
    && (key == "@uri" && v.Str? ==> !EndsWith(v.value, ".json"))
    && (category == "sources" && key == "sourceCitation" && v.Str? ==> |v.value| <= 1000)
    && (v.Arr? && !MayKeepLanguages(key, path, category) ==> DistinctLanguages(v.items))
  }

  predicate SurfaceHere(o: Members, path: string, category: string) {
    forall k :: k in o ==> !Unbound(k, path, category) && MemberFits(k, o[k], path, category) && !IsEmptyOptional(k, o[k])
  }

  /** Every object of the document, at its path, satisfies the surface. */
  predicate OnSurface(v: Value, path: string, category: string)
    decreases v
  {
    match v
    case Obj(m) =>
      SurfaceHere(m, path, category) && forall k :: k in m ==> OnSurface(m[k], Join(path, Escape(k)), category)
    case Arr(items) =>
      forall i :: 0 <= i < |items| ==> OnSurface(items[i], Join(path, Decimal(i)), category)
    case _ => true
  }

  /** What adapting a value keeps about it: its kind, its length, and the languages of its items. */
  predicate Alike(v: Value, w: Value) {
    match v
    case Obj(_) => w.Obj? && Lang(w) == Lang(v)
    case Arr(items) =>
      w.Arr? && |w.items| == |items| && forall i :: 0 <= i < |items| ==> Lang(w.items[i]) == Lang(items[i])
    case _ => w == v
  }

  lemma {:induction false} AlikeFits(key: string, v: Value, w: Value, path: string, category: string)
    requires MemberFits(key, v, path, category) && Alike(v, w)
    ensures MemberFits(key, w, path, category)
  {
    hide Settled, TakesShortText, EndsWith, Trim;
    if v.Arr? {
      assert |w.items| == |v.items|;
    }
  }

  // ---------- the steps before the members reach the surface ----------

  /** References no longer name JSON files, and languages are merged. */
  predicate Clean(o: Members, path: string, category: string) {
    forall k :: k in o ==>
      (k == "@uri" && o[k].Str? ==> !EndsWith(o[k].value, ".json"))
      && (o[k].Arr? && !MayKeepLanguages(k, path, category) ==> DistinctLanguages(o[k].items))
  }

  lemma {:induction false} XmlIsNotJson(prefix: string)
    ensures !EndsWith(prefix + ".xml", ".json")
  {
    var s := prefix + ".xml";
    assert s[|s| - 1] == 'l';
  }

  lemma {:induction false} MergedClean(o: Members, path: string, category: string)
    ensures Clean(LanguagesMerged(UriMapped(o), path), path, category)
  {
    forall k | k in o
      ensures k == "@uri" && UriMapped(o)[k].Str? ==> !EndsWith(UriMapped(o)[k].value, ".json")
      ensures UriMapped(o)[k].Arr? && !MayKeepLanguages(k, path, category) ==>
        DistinctLanguages(MemberMerged(path, k, UriMapped(o)[k]).items)
    {
      if k == "@uri" && o[k].Str? && EndsWith(o[k].value, ".json") {
        XmlIsNotJson(o[k].value[..|o[k].value| - 5]);
      }
      if UriMapped(o)[k].Arr? {
        MergedCorrect(UriMapped(o)[k].items);
      }
    }
  }

  lemma {:induction false} RemergedClean(o: Members, path: string, category: string)
    requires forall k :: k in o ==> (k == "@uri" && o[k].Str? ==> !EndsWith(o[k].value, ".json"))
    ensures Clean(LanguagesMerged(o, path), path, category)
  {
    forall k | k in o
      ensures o[k].Arr? && !MayKeepLanguages(k, path, category) ==>
        DistinctLanguages(MemberMerged(path, k, o[k]).items)
    {
      if o[k].Arr? {
        MergedCorrect(o[k].items);
      }
    }
  }

  lemma {:induction false} CategoryClean(o: Members, path: string, category: string)
    requires Clean(o, path, category)
    ensures Clean(CategoryAdapted(o, path, category), path, category)
  {
    hide EndsWith, IsExchangePath, IsReviewPath, IsTimePath, Contains, DistinctLanguages, MayRepeat;
    match category
    case "processes" => ProcessClean(o, path);
    case "flows" =>
    case "lciamethods" =>
    case "lifecyclemodels" => ModelClean(o, path);
    case "sources" =>
    case _ =>
  }

  lemma {:induction false} ProcessClean(o: Members, path: string)
    requires Clean(o, path, "processes")
    ensures Clean(ProcessAdapted(o, path), path, "processes")
  {
    hide EndsWith, IsExchangePath, IsTimePath, Contains, DistinctLanguages, Names, ProcessOmitted;
    var named := TimeMapped(o, path);
    var description := "timeRepresentativenessDescription";
    assert |description| != |"functionalUnitOrOther"|;
    assert Clean(named, path, "processes") by {
      assert |"common:timeRepresentativenessDescription"| != |"@uri"|;
    }
    assert |"#text"| != |"@uri"|;
  }

  lemma {:induction false} ModelClean(o: Members, path: string)
    requires Clean(o, path, "lifecyclemodels")
    ensures Clean(ModelAdapted(o, path), path, "lifecyclemodels")
  {
    hide EndsWith, IsReviewPath, DistinctLanguages, MayRepeat, HasRepeat, Names;
    var trimmed := CommentProjected(o, path) - Names(MODEL_METADATA) - ModelOmitted(path);
    assert Clean(trimmed, path, "lifecyclemodels");
    if EndsWith(path, "/name") && "flowProperties" in trimmed {
      var earlier := if "functionalUnitFlowProperties" in trimmed then AsItems(trimmed["functionalUnitFlowProperties"]) else [];
      RemergedClean((trimmed - {"flowProperties", "functionalUnitFlowProperties"})
          ["functionalUnitFlowProperties" := Arr(earlier + AsItems(trimmed["flowProperties"]))], path, "lifecyclemodels");
    }
    assert Clean(NameMapped(trimmed, path), path, "lifecyclemodels");
  }

  lemma {:induction false} CategoryBound(o: Members, path: string, category: string)
    requires category == "processes" && IsExchangePath(path) ==> "referenceToDataSource" !in o
    ensures forall k :: k in CategoryAdapted(o, path, category) ==> !UnboundInCategory(k, path, category)
  {
    hide EndsWith, IsExchangePath, IsReviewPath, IsTimePath, Contains, LacksQualityIndicator, IsIncompleteParameter;
    match category
    case "processes" => ProcessBound(o, path);
    case "flows" =>
    case "lciamethods" =>
    case "lifecyclemodels" => ModelBound(o, path);
    case "sources" =>
    case _ =>
  }

  lemma {:induction false} ProcessBound(o: Members, path: string)
    requires IsExchangePath(path) ==> "referenceToDataSource" !in o
    ensures forall k :: k in ProcessAdapted(o, path) ==> !UnboundInCategory(k, path, "processes")
  {
    hide EndsWith, IsExchangePath, IsTimePath, Contains, LacksQualityIndicator, IsIncompleteParameter;
    var named := TimeMapped(o, path);
    assert IsExchangePath(path) ==> "referenceToDataSource" !in named by {
      assert |"referenceToDataSource"| != |"common:timeRepresentativenessDescription"|;
    }
    assert IsTimePath(path) ==> "timeRepresentativenessDescription" !in named by {
      assert |"timeRepresentativenessDescription"| != |"common:timeRepresentativenessDescription"|;
    }
    var kept := named - Names(PROCESS_EXTENSIONS) - ProcessOmitted(named, path);
    assert forall k :: k in Truncated(kept, path, 500) <==> k in kept;
    forall k | k in ProcessAdapted(o, path)
      ensures !UnboundInCategory(k, path, "processes")
    {
      assert k in kept && k in named && k !in Names(PROCESS_EXTENSIONS);
    }
  }

  lemma {:induction false} ModelBound(o: Members, path: string)
    ensures forall k :: k in ModelAdapted(o, path) ==> !UnboundInCategory(k, path, "lifecyclemodels")
  {
    hide EndsWith, IsReviewPath, HasRepeat, MayRepeat, AsItems;
    var trimmed := CommentProjected(o, path) - Names(MODEL_METADATA) - ModelOmitted(path);
    var named := NameMapped(trimmed, path);
    assert "functionalUnitFlowProperties" !in Names(MODEL_METADATA) + Names(MODEL_SOURCES) + Names(MODEL_AUTHORITIES);
    assert forall k :: k in named ==> k in trimmed || k == "functionalUnitFlowProperties";
    assert |"functionalUnitFlowProperties"| != |"flowProperties"|;
    forall k | k in ModelAdapted(o, path)
      ensures !UnboundInCategory(k, path, "lifecyclemodels")
    {
      assert k in named;
      assert k in trimmed || k == "functionalUnitFlowProperties";
      assert k !in Names(MODEL_METADATA) && k !in ModelOmitted(path);
    }
  }

  lemma {:induction false} CategoryShort(o: Members, path: string, category: string)
    ensures var out := CategoryAdapted(o, path, category);
      ("#text" in out && out["#text"].Str? && TakesShortText(path) && category in ["processes", "flows"] ==>
        |out["#text"].value| <= 500)
      && ("sourceCitation" in out && out["sourceCitation"].Str? && category == "sources" ==>
        |out["sourceCitation"].value| <= 1000)
  {
    hide EndsWith, IsExchangePath, IsReviewPath, IsTimePath, Contains, LacksQualityIndicator, IsIncompleteParameter;
  }

  /** Before its members are visited, an object already satisfies the surface. */
  lemma {:induction false} ShallowOnSurface(o: Members, path: string, category: string)
    ensures SurfaceHere(Shallow(o, path, category), path, category)
  {
    hide EndsWith, IsExchangePath, Contains, DistinctLanguages, MayRepeat, CategoryAdapted, LanguagesMerged, UriMapped,
      UnboundInCategory, Trim, LineEnds;
    var mapped := if category == "processes" then ExchangeMapped(o, path) else o;
    var merged := LanguagesMerged(UriMapped(mapped), path);
    var adapted := CategoryAdapted(merged, path, category);
    ReferenceMoved(mapped, o, path, category);
    MergedClean(mapped, path, category);
    CategoryClean(merged, path, category);
    CategoryBound(merged, path, category);
    CategoryShort(merged, path, category);
    var bound := adapted - ExtensionKeys(adapted);
    var filled := TextsProjected(bound - EmptyArrayKeys(bound));
    var texts := filled - EmptyText(filled);
    forall k | k in texts
      ensures MemberFits(k, texts[k], path, category) && !Unbound(k, path, category)
    {
      TextsFit(k, adapted[k], path, category);
    }
  }

  lemma {:induction false} ReferenceMoved(mapped: Members, o: Members, path: string, category: string)
    requires mapped == if category == "processes" then ExchangeMapped(o, path) else o
    ensures category == "processes" && IsExchangePath(path) ==>
      "referenceToDataSource" !in LanguagesMerged(UriMapped(mapped), path)
  {
    hide IsExchangePath, EndsWith;
    assert |"referencesToDataSource"| != |"referenceToDataSource"|;
    assert "referencesToDataSource" != "referenceToDataSource";
    assert |"@uri"| != |"referenceToDataSource"|;
  }

  lemma {:induction false} TextsFit(k: string, v: Value, path: string, category: string)
    requires v != Arr([]) && !(k == "#text" && IsEmptyScalar(TextProjected(k, v)))
    requires k == "@uri" && v.Str? ==> !EndsWith(v.value, ".json")
    requires v.Arr? && !MayKeepLanguages(k, path, category) ==> DistinctLanguages(v.items)
    requires k == "#text" && v.Str? && TakesShortText(path) && category in ["processes", "flows"] ==> |v.value| <= 500
    requires k == "sourceCitation" && v.Str? && category == "sources" ==> |v.value| <= 1000
    ensures MemberFits(k, TextProjected(k, v), path, category)
  {
    hide EndsWith, Contains, DistinctLanguages, MayRepeat;
    if v.Str? {
      ProjectTextSettles(v.value);
      ProjectTextShorter(v.value);
    }
  }

  lemma {:induction false} PairShorter(s: string, a: char, b: char, with: char)
    ensures |ReplacePair(s, a, b, with)| <= |s|
  {
    if s == "" {
    } else if |s| >= 2 && s[0] == a && s[1] == b {
      PairShorter(s[2..], a, b, with);
    } else {
      PairShorter(s[1..], a, b, with);
    }
  }

  lemma {:induction false} CharSameLength(s: string)
    ensures |ReplaceChar(s, '\r', "\n")| == |s|
  {
    if s != "" {
      CharSameLength(s[1..]);
    }
  }

  lemma {:induction false} ProjectTextShorter(s: string)
    ensures |ProjectText(s)| <= |s|
  {
    PairShorter(s, '\r', '\n', '\n');
    CharSameLength(ReplacePair(s, '\r', '\n', '\n'));
    TrimIsTrimmed(LineEnds(s));
  }
}
