/** Where each member of a projected object comes from and what its value is, told member by member. */
module Provenance {
  import opened Json
  import opened Pointer
  import opened XmlText
  import opened Languages
  import opened Rules
  import opened Surface

  // ---------- the source of a member ----------

  const SOURCE := "referenceToDataSource"
  const SOURCES := "referencesToDataSource"
  const DESCRIPTION := "timeRepresentativenessDescription"
  const COMMON_DESCRIPTION := "common:timeRepresentativenessDescription"
  const PROPERTIES := "flowProperties"
  const UNIT_PROPERTIES := "functionalUnitFlowProperties"

  /** The data source of an exchange goes one level deeper. */
  predicate WrapsSource(m: Members, path: string, category: string) {
    category == "processes" && IsExchangePath(path) && SOURCE in m
  }

  predicate RenamesDescription(m: Members, path: string, category: string) {
    category == "processes" && IsTimePath(path) && DESCRIPTION in m
  }

  predicate CollectsProperties(m: Members, path: string, category: string) {
    category == "lifecyclemodels" && EndsWith(path, "/name") && PROPERTIES in m
  }

  /** A field whose fragments have distinct languages. */
  function Localized(v: Value): Value {
    if v.Arr? && HasRepeat(v.items) then Arr(Merged(v.items)) else v
  }

  /** The items of both fields of flow properties, each without repeated languages. */
  function Collected(m: Members): Value
    requires PROPERTIES in m
  {
    Arr((if UNIT_PROPERTIES in m then AsItems(Localized(m[UNIT_PROPERTIES])) else []) + AsItems(Localized(m[PROPERTIES])))
  }

  /** The source value that stands under a name after wrapping and renaming. */
  function Origin(m: Members, k: string, path: string, category: string): Option<Value> {
    if WrapsSource(m, path, category) && k == SOURCES then Some(Obj(map[SOURCE := m[SOURCE]]))
    else if WrapsSource(m, path, category) && k == SOURCE then None
    else if RenamesDescription(m, path, category) && k == COMMON_DESCRIPTION then Some(m[DESCRIPTION])
    else if RenamesDescription(m, path, category) && k == DESCRIPTION then None
    else if CollectsProperties(m, path, category) && k == UNIT_PROPERTIES then Some(Collected(m))
    else if CollectsProperties(m, path, category) && k == PROPERTIES then None
    else if k in m then Some(m[k])
    else None
  }

  // ---------- the value of a member ----------

  predicate IsFragment(v: Value) {
    v.Obj? && v.members.Keys == {"@xml:lang", "#text"} && v.members["@xml:lang"].Str? && v.members["#text"].Str?
  }

  /** Fragments of several languages that the target format takes as one. */
  predicate IsMixedComment(k: string, v: Value, path: string, category: string) {
    category == "lifecyclemodels" && path == MODEL_COMMENT_PATH && k == "common:generalComment"
    && v.Arr? && |v.items| >= 2 && forall i :: 0 <= i < |v.items| ==> IsFragment(v.items[i])
  }

  /** A fragment under the name of its language. */
  function Labelled(v: Value): string
    requires IsFragment(v)
  {
    "[" + v.members["@xml:lang"].value + "]\n" + v.members["#text"].value
  }

  function AllLabelled(items: seq<Value>): seq<string>
    requires forall i :: 0 <= i < |items| ==> IsFragment(items[i])
  {
    seq(|items|, i requires 0 <= i < |items| => Labelled(items[i]))
  }

  /** What one field becomes as a whole: one fragment of each language, one mixed comment, the first compliance. */
  ghost predicate FieldMade(k: string, w: Value, y: Value, path: string, category: string) {
    var merged := if MayRepeat(path, k) then w else Localized(w);
    if IsMixedComment(k, merged, path, category) then
      y == Obj(map["@xml:lang" := Str("mul"), "#text" := Str(Paragraphs(AllLabelled(merged.items)))])
    else if category == "lifecyclemodels" && k == "compliance" && merged.Arr? && |merged.items| > 1 then y == merged.items[0]
    else y == merged
  }

  /** How much of a text the target format takes. */
  function Limit(k: string, path: string, category: string): Option<nat> {
    if k == "#text" && category in ["processes", "flows"] && TakesShortText(path) then Some(500)
    else if k == "sourceCitation" && category == "sources" then Some(1000)
    else None
  }

  /** `part` is the text, or exactly as much of it as the limit allows. */
  predicate CutTo(text: string, limit: Option<nat>, part: string) {
    if limit.Some? && |text| > limit.value then part <= text && |part| == limit.value else part == text
  }

  /** A link to a JSON file becomes the link to the XML file of that name. */
  ghost predicate LinkMade(uri: string, link: string) {
    (forall prefix: string :: uri == prefix + ".json" ==> link == prefix + ".xml")
    && ((forall prefix: string :: uri != prefix + ".json") ==> link == uri)
  }

  ghost predicate TextMade(k: string, text: string, out: string, path: string, category: string) {
    if k == "@uri" then LinkMade(text, out)
    else if "@" <= k then out == text
    else exists part :: CutTo(text, Limit(k, path, category), part) && out == ProjectText(part)
  }

  /** What a source value becomes under a name. */
  ghost predicate ValueMade(k: string, w: Value, y: Value, path: string, category: string) {
    exists field ::
      FieldMade(k, w, field, path, category) &&
      if field.Str? then y.Str? && TextMade(k, field.value, y.value, path, category) else y == field
  }

  // ---------- the members there are ----------

  /** Something is listed under the name. */
  predicate Lists(v: Value, key: string) {
    v.Obj? && key in v.members && v.members[key] !in [Null, Arr([])]
  }

  /** Members that an object of the category does without. */
  predicate Omitted(m: Members, k: string, w: Value, category: string) {
    match category
    case "processes" =>
      (k == "variableParameter" && !(w.Obj? && ("@name" in w.members || "name" in w.members)))
      || ((k == "common:dataQualityIndicators" || k == "dataQualityIndicators")
          && !Lists(w, "common:dataQualityIndicator") && !Lists(w, "dataQualityIndicator"))
    case "flows" => k == "@classId" && IsEmptyScalar(w) && "@catId" in m
    case _ => false
  }

  /** The member `k` of the projected object, before its own members are projected, is `y`. */
  ghost predicate MemberMade(m: Members, k: string, y: Value, path: string, category: string) {
    var w := Origin(m, k, path, category);
    && w.Some? && !Unbound(k, path, category) && !Omitted(m, k, w.value, category)
    && ValueMade(k, w.value, y, path, category)
    && y != Arr([]) && !(k == "#text" && IsEmptyScalar(y)) && !IsEmptyOptional(k, y)
  }

  // ---------- the steps, at one name ----------

  function At(o: Members, k: string): Option<Value> {
    if k in o then Some(o[k]) else None
  }

  lemma Distinct()
    ensures SOURCE != SOURCES && DESCRIPTION != COMMON_DESCRIPTION && PROPERTIES != UNIT_PROPERTIES
    ensures SOURCE != "@uri" && SOURCES != "@uri"
  {
    assert |SOURCE| != |SOURCES| && |DESCRIPTION| != |COMMON_DESCRIPTION| && |PROPERTIES| != |UNIT_PROPERTIES|;
    assert |SOURCE| != |"@uri"| && |SOURCES| != |"@uri"|;
  }

  function UriOf(k: string, w: Value): Value {
    if k == "@uri" && w.Str? && EndsWith(w.value, ".json") then Str(w.value[..|w.value| - 5] + ".xml") else w
  }

  lemma MergedAt(o: Members, path: string, k: string)
    ensures At(LanguagesMerged(UriMapped(o), path), k) ==
            match At(o, k) case None => None case Some(w) => Some(MemberMerged(path, k, UriOf(k, w)))
  {
    hide MemberMerged, EndsWith;
  }

  lemma ExchangeAt(o: Members, path: string, k: string)
    ensures At(ExchangeMapped(o, path), k) ==
            if IsExchangePath(path) && SOURCE in o && k == SOURCES then Some(Obj(map[SOURCE := o[SOURCE]]))
            else if IsExchangePath(path) && SOURCE in o && k == SOURCE then None
            else At(o, k)
  {
    Distinct();
    hide IsExchangePath;
  }

  function Shortened(k: string, w: Value, path: string): Value {
    if k == "#text" && w.Str? && TakesShortText(path) && |w.value| > 500 then Str(w.value[..500]) else w
  }

  lemma TruncatedAt(o: Members, path: string, k: string)
    ensures At(Truncated(o, path, 500), k) == match At(o, k) case None => None case Some(w) => Some(Shortened(k, w, path))
  {
    hide TakesShortText;
  }

  lemma NamesHold(names: seq<string>, k: string)
    ensures k in Names(names) <==> k in names
  {
  }

  function Described(o: Members, path: string, k: string): Option<Value> {
    if IsTimePath(path) && DESCRIPTION in o && k == COMMON_DESCRIPTION then Some(o[DESCRIPTION])
    else if IsTimePath(path) && DESCRIPTION in o && k == DESCRIPTION then None
    else At(o, k)
  }

  lemma TimeAt(o: Members, path: string, k: string)
    ensures At(TimeMapped(o, path), k) == Described(o, path, k)
  {
    Distinct();
    hide IsTimePath;
  }

  predicate DroppedFromProcess(k: string, w: Value, path: string) {
    k in PROCESS_EXTENSIONS
    || (IsExchangePath(path) && k == "quantitativeReference")
    || (k == "variableParameter" && IsIncompleteParameter(w))
    || ((k == "common:dataQualityIndicators" || k == "dataQualityIndicators") && LacksQualityIndicator(w))
    || k == "unmatched:placeholder"
  }

  lemma ProcessAt(o: Members, path: string, k: string)
    ensures At(ProcessAdapted(o, path), k) ==
            match Described(o, path, k)
            case None => None
            case Some(w) => if DroppedFromProcess(k, w, path) then None else Some(Shortened(k, w, path))
  {
    var named := TimeMapped(o, path);
    TimeAt(o, path, k);
    NamesHold(PROCESS_EXTENSIONS, k);
    hide TimeMapped, Described, IsExchangePath, IsIncompleteParameter, LacksQualityIndicator, Names, Truncated, Shortened;
    assert k in ProcessOmitted(named, path) <==>
           (IsExchangePath(path) && k == "quantitativeReference")
           || (k == "variableParameter" && k in named && IsIncompleteParameter(named[k]))
           || ((k == "common:dataQualityIndicators" || k == "dataQualityIndicators") && k in named && LacksQualityIndicator(named[k]));
    hide ProcessOmitted;
    TruncatedAt(named - Names(PROCESS_EXTENSIONS) - ProcessOmitted(named, path), path, k);
  }

  predicate DroppedFromFlow(o: Members, k: string, w: Value, path: string) {
    k in FLOW_EXTENSIONS
    || (k == "@classId" && IsEmptyScalar(w) && "@catId" in o)
    || (EndsWith(path, "/modellingAndValidation") && k == "validation")
    || (EndsWith(path, "/publicationAndOwnership") && k in FLOW_PUBLICATION)
    || (EndsWith(path, "/dataSetInformation") && k == "common:shortName")
  }

  lemma FlowAt(o: Members, path: string, k: string)
    ensures At(FlowAdapted(o, path), k) ==
            match At(o, k)
            case None => None
            case Some(w) => if DroppedFromFlow(o, k, w, path) then None else Some(Shortened(k, w, path))
  {
    NamesHold(FLOW_EXTENSIONS, k);
    NamesHold(FLOW_PUBLICATION, k);
    TruncatedAt(o - Names(FLOW_EXTENSIONS) - FlowOmitted(o, path), path, k);
    hide EndsWith, IsEmptyScalar, Names, Truncated, Shortened;
  }

  lemma SourceAt(o: Members, k: string)
    ensures At(SourceAdapted(o), k) ==
            match At(o, k)
            case None => None
            case Some(w) =>
              if k in SOURCE_METADATA then None
              else Some(if k == "sourceCitation" && w.Str? && |w.value| > 1000 then Str(w.value[..1000]) else w)
  {
    NamesHold(SOURCE_METADATA, k);
    hide Names;
  }

  // ---------- life cycle models ----------

  function Commented(k: string, w: Value, path: string): Value {
    if k == "common:generalComment" && path == MODEL_COMMENT_PATH && w.Arr? && |w.items| >= 2 && AllFragments(w.items)
    then Obj(map["@xml:lang" := Str("mul"), "#text" := Str(MixedText(w.items))]) else w
  }

  lemma CommentAt(o: Members, path: string, k: string)
    ensures At(CommentProjected(o, path), k) == match At(o, k) case None => None case Some(w) => Some(Commented(k, w, path))
  {
    hide AllFragments, MixedText;
  }

  predicate DroppedFromModel(k: string, path: string) {
    k in MODEL_METADATA
    || (EndsWith(path, "/dataEntryBy") && k in MODEL_SOURCES)
    || (EndsWith(path, "/publicationAndOwnership") && k in MODEL_AUTHORITIES)
  }

  lemma TrimmedAt(o: Members, path: string, k: string)
    ensures At(o - Names(MODEL_METADATA) - ModelOmitted(path), k) == if DroppedFromModel(k, path) then None else At(o, k)
  {
    NamesHold(MODEL_METADATA, k);
    NamesHold(MODEL_SOURCES, k);
    NamesHold(MODEL_AUTHORITIES, k);
    hide EndsWith, Names;
  }

  /** The combined flow properties before the languages of the whole are merged. */
  function Combined(o: Members): Value
    requires PROPERTIES in o
  {
    Arr((if UNIT_PROPERTIES in o then AsItems(o[UNIT_PROPERTIES]) else []) + AsItems(o[PROPERTIES]))
  }

  lemma NameAt(o: Members, path: string, k: string)
    ensures At(NameMapped(o, path), k) ==
            if !(EndsWith(path, "/name") && PROPERTIES in o) then At(o, k)
            else if k == UNIT_PROPERTIES then Some(MemberMerged(path, k, Combined(o)))
            else if k == PROPERTIES then None
            else match At(o, k) case None => None case Some(w) => Some(MemberMerged(path, k, w))
  {
    Distinct();
    hide EndsWith, MemberMerged, AsItems;
  }

  function First(k: string, w: Value): Value {
    if k == "compliance" && w.Arr? && |w.items| > 1 then w.items[0] else w
  }

  lemma ComplianceAt(o: Members, k: string)
    ensures At(PrimaryCompliance(o), k) == match At(o, k) case None => None case Some(w) => Some(First(k, w))
  {
  }

  lemma ModelAt(o: Members, path: string, k: string)
    ensures var trimmed := CommentProjected(o, path) - Names(MODEL_METADATA) - ModelOmitted(path);
            At(ModelAdapted(o, path), k) ==
              if IsReviewPath(path) && k == "@type" then None
              else match At(NameMapped(trimmed, path), k) case None => None case Some(w) => Some(First(k, w))
  {
    var trimmed := CommentProjected(o, path) - Names(MODEL_METADATA) - ModelOmitted(path);
    var named := NameMapped(trimmed, path);
    hide CommentProjected, NameMapped, ModelOmitted, Names, IsReviewPath, PrimaryCompliance, First;
    ComplianceAt(if IsReviewPath(path) then named - {"@type"} else named, k);
  }

  // ---------- the last steps ----------

  function Finished(k: string, v: Value): Option<Value> {
    if IsExtensionKey(k) || v == Arr([]) then None
    else
      var text := TextProjected(k, v);
      if (k == "#text" && IsEmptyScalar(text)) || IsEmptyOptional(k, text) then None else Some(text)
  }

  lemma TailAt(o: Members, k: string)
    ensures var bound := o - ExtensionKeys(o);
            var filled := TextsProjected(bound - EmptyArrayKeys(bound));
            var texts := filled - EmptyText(filled);
            At(texts - EmptyOptionals(texts), k) == match At(o, k) case None => None case Some(v) => Finished(k, v)
  {
    hide IsExtensionKey, TextProjected, IsEmptyScalar, IsEmptyOptional;
  }

  // ---------- the value, computed ----------

  function FieldOf(k: string, w: Value, path: string, category: string): Value {
    var merged := MemberMerged(path, k, w);
    if category == "lifecyclemodels" then First(k, Commented(k, merged, path)) else merged
  }

  function Cut(text: string, limit: Option<nat>): string {
    if limit.Some? && |text| > limit.value then text[..limit.value] else text
  }

  function LinkOf(uri: string): string {
    if EndsWith(uri, ".json") then uri[..|uri| - 5] + ".xml" else uri
  }

  /** A field before white space is settled. */
  function Limited(k: string, field: Value, path: string, category: string): Value {
    if !field.Str? then field
    else if k == "@uri" then Str(LinkOf(field.value))
    else Str(Cut(field.value, Limit(k, path, category)))
  }

  lemma {:induction false} MixedIs(items: seq<Value>)
    requires AllFragments(items)
    ensures forall i :: 0 <= i < |items| ==> IsFragment(items[i])
    ensures MixedText(items) == Paragraphs(AllLabelled(items))
  {
    forall i | 0 <= i < |items|
      ensures IsFragment(items[i]) && Labelled(items[i]) == FragmentText(items[i])
    {
      FragmentIs(items[i]);
    }
    if |items| > 1 {
      var init, last := items[..|items| - 1], items[|items| - 1];
      MixedIs(init);
      assert AllLabelled(items) == AllLabelled(init) + [Labelled(last)];
      ParagraphsLast(AllLabelled(init), Labelled(last));
    }
  }

  lemma FragmentIs(v: Value)
    ensures IsFragment(v) <==> IsCommentFragment(v)
    ensures IsFragment(v) ==> Labelled(v) == FragmentText(v)
  {
    if IsCommentFragment(v) {
      assert v.members.Keys == {"@xml:lang", "#text"};
    }
  }

  lemma {:induction false} FieldMadeIs(k: string, w: Value, y: Value, path: string, category: string)
    ensures FieldMade(k, w, y, path, category) <==> y == FieldOf(k, w, path, category)
  {
    var merged := if MayRepeat(path, k) then w else Localized(w);
    if merged.Arr? {
      forall i | 0 <= i < |merged.items|
        ensures IsFragment(merged.items[i]) <==> IsCommentFragment(merged.items[i])
      {
        FragmentIs(merged.items[i]);
      }
      if AllFragments(merged.items) {
        MixedIs(merged.items);
      }
    }
    hide MayRepeat, HasRepeat, IsFragment, IsCommentFragment, MixedText, Paragraphs, AllLabelled;
    assert MemberMerged(path, k, w) == merged;
    assert |"compliance"| != |"common:generalComment"|;
  }

  lemma LinkMadeIs(uri: string, link: string)
    ensures LinkMade(uri, link) <==> link == LinkOf(uri)
  {
    if EndsWith(uri, ".json") {
      assert uri == uri[..|uri| - 5] + ".json";
    }
    forall prefix: string | uri == prefix + ".json"
      ensures EndsWith(uri, ".json") && prefix == uri[..|uri| - 5]
    {
    }
  }

  lemma TextMadeIs(k: string, text: string, out: string, path: string, category: string)
    ensures TextMade(k, text, out, path, category) <==>
            out == if k == "@uri" then LinkOf(text) else if "@" <= k then text else ProjectText(Cut(text, Limit(k, path, category)))
  {
    hide ProjectText, LinkOf, Limit;
    LinkMadeIs(text, out);
    hide LinkMade;
    var limit := Limit(k, path, category);
    forall part
      ensures CutTo(text, limit, part) <==> part == Cut(text, limit)
    {
    }
  }

  lemma ValueMadeIs(k: string, w: Value, y: Value, path: string, category: string)
    ensures ValueMade(k, w, y, path, category) <==>
            y == TextProjected(k, Limited(k, FieldOf(k, w, path, category), path, category))
  {
    var field := FieldOf(k, w, path, category);
    forall z
      ensures FieldMade(k, w, z, path, category) <==> z == field
    {
      FieldMadeIs(k, w, z, path, category);
    }
    if field.Str? && y.Str? {
      TextMadeIs(k, field.value, y.value, path, category);
    }
    NamesApart();
    hide FieldMade, FieldOf, TextMade, LinkOf, ProjectText;
  }

  lemma NamesApart()
    ensures "@" <= "@uri" && Limit("@uri", "", "") == None
    ensures forall k, path, category :: "@" <= k ==> Limit(k, path, category) == None
  {
    assert "#text"[0] == '#' && "sourceCitation"[0] == 's' && "@"[0] == '@';
  }

  /** The member under a name, computed from its source. */
  function Projected(m: Members, k: string, path: string, category: string): Option<Value> {
    match Origin(m, k, path, category)
    case None => None
    case Some(w) =>
      if UnboundInCategory(k, path, category) || Omitted(m, k, w, category) then None
      else Finished(k, Limited(k, FieldOf(k, w, path, category), path, category))
  }

  lemma MemberMadeIs(m: Members, k: string, y: Value, path: string, category: string)
    ensures MemberMade(m, k, y, path, category) <==> Projected(m, k, path, category) == Some(y)
  {
    var w := Origin(m, k, path, category);
    hide Origin, UnboundInCategory, Omitted, IsExtensionKey, IsEmptyScalar, IsEmptyOptional;
    if w.Some? {
      ValueMadeIs(k, w.value, y, path, category);
      var field := FieldOf(k, w.value, path, category);
      hide ValueMade, FieldOf, LinkOf, Limit, ProjectText;
      assert Limited(k, field, path, category) == Arr([]) <==> TextProjected(k, Limited(k, field, path, category)) == Arr([]);
    }
  }

  // ---------- the steps, together ----------

  lemma MergedTwice(path: string, k: string, w: Value)
    ensures MemberMerged(path, k, MemberMerged(path, k, w)) == MemberMerged(path, k, w)
    ensures MemberMerged(path, k, w).Arr? <==> w.Arr?
    ensures !w.Arr? ==> MemberMerged(path, k, w) == w
  {
    if w.Arr? {
      MergedCorrect(w.items);
    }
    hide MayRepeat;
  }

  /** A field before the steps of the category. */
  function Early(k: string, w: Value, path: string): Value {
    MemberMerged(path, k, UriOf(k, w))
  }

  function Wrapped(m: Members, path: string, category: string): Members {
    if category == "processes" then ExchangeMapped(m, path) else m
  }

  lemma EarlyAt(m: Members, path: string, category: string, k: string)
    ensures var o := LanguagesMerged(UriMapped(Wrapped(m, path, category)), path);
            At(o, k) == match At(Wrapped(m, path, category), k) case None => None case Some(w) => Some(Early(k, w, path))
  {
    MergedAt(Wrapped(m, path, category), path, k);
    hide LanguagesMerged, UriMapped, Wrapped, MemberMerged, UriOf;
  }

  /** In categories without renaming a field is its own source. */
  lemma EarlyIsLimited(k: string, w: Value, path: string, category: string)
    requires Limit(k, path, category).None? && category != "lifecyclemodels"
    ensures Early(k, w, path) == Limited(k, FieldOf(k, w, path, category), path, category)
  {
    MergedTwice(path, k, w);
    MergedTwice(path, k, UriOf(k, w));
    hide MemberMerged, Limit;
  }

  lemma ShortenedIsLimited(k: string, w: Value, path: string, category: string)
    requires category == "processes" || category == "flows"
    ensures Shortened(k, Early(k, w, path), path) == Limited(k, FieldOf(k, w, path, category), path, category)
  {
    MergedTwice(path, k, w);
    MergedTwice(path, k, UriOf(k, w));
    assert "sources" != category && |"#text"| != |"@uri"| && "lifecyclemodels" != category;
    hide MemberMerged, TakesShortText;
  }

  /** The member after the steps of the category. */
  function Bound(m: Members, k: string, path: string, category: string): Option<Value> {
    match Origin(m, k, path, category)
    case None => None
    case Some(w) =>
      if UnboundInCategory(k, path, category) || Omitted(m, k, w, category) then None
      else Some(Limited(k, FieldOf(k, w, path, category), path, category))
  }

  /** Merging languages leaves what decides about a member. */
  lemma EarlyDecides(k: string, w: Value, path: string)
    ensures k != "@uri" ==>
              && (IsIncompleteParameter(Early(k, w, path)) <==> IsIncompleteParameter(w))
              && (LacksQualityIndicator(Early(k, w, path)) <==> LacksQualityIndicator(w))
              && (IsEmptyScalar(Early(k, w, path)) <==> IsEmptyScalar(w))
  {
    MergedTwice(path, k, w);
    hide MemberMerged, Trim;
  }

  lemma ProcessNames()
    ensures DESCRIPTION != SOURCE && DESCRIPTION != SOURCES && DESCRIPTION != "@uri" && COMMON_DESCRIPTION != "@uri"
    ensures COMMON_DESCRIPTION != SOURCE && COMMON_DESCRIPTION != SOURCES
    ensures DESCRIPTION != "functionalUnitOrOther" && COMMON_DESCRIPTION != "functionalUnitOrOther"
  {
    assert |DESCRIPTION| != |SOURCE| && |DESCRIPTION| != |SOURCES| && |DESCRIPTION| != |"@uri"| && |COMMON_DESCRIPTION| != |"@uri"|;
    assert |COMMON_DESCRIPTION| != |SOURCE| && |COMMON_DESCRIPTION| != |SOURCES|;
    assert |DESCRIPTION| != |"functionalUnitOrOther"| && |COMMON_DESCRIPTION| != |"functionalUnitOrOther"|;
  }

  lemma DescriptionEarly(w: Value, path: string)
    ensures Early(DESCRIPTION, w, path) == Early(COMMON_DESCRIPTION, w, path)
  {
    ProcessNames();
    hide HasRepeat;
  }

  lemma DescribedIs(m: Members, path: string, k: string)
    ensures var o := LanguagesMerged(UriMapped(ExchangeMapped(m, path)), path);
            Described(o, path, k) ==
              match Origin(m, k, path, "processes") case None => None case Some(w) => Some(Early(k, w, path))
  {
    Distinct();
    ProcessNames();
    EarlyAt(m, path, "processes", k);
    EarlyAt(m, path, "processes", DESCRIPTION);
    ExchangeAt(m, path, k);
    ExchangeAt(m, path, DESCRIPTION);
    if DESCRIPTION in m {
      DescriptionEarly(m[DESCRIPTION], path);
    }
    hide LanguagesMerged, UriMapped, ExchangeMapped, IsExchangePath, IsTimePath, Early;
  }

  lemma ProcessMember(m: Members, path: string, k: string)
    ensures var o := LanguagesMerged(UriMapped(ExchangeMapped(m, path)), path);
            k != "unmatched:placeholder" ==> At(ProcessAdapted(o, path), k) == Bound(m, k, path, "processes")
  {
    var o := LanguagesMerged(UriMapped(ExchangeMapped(m, path)), path);
    ProcessAt(o, path, k);
    DescribedIs(m, path, k);
    hide LanguagesMerged, UriMapped, ExchangeMapped, ProcessAdapted, Described, Early, Shortened, FieldOf, Limited;
    var origin := Origin(m, k, path, "processes");
    if origin.Some? && k != "unmatched:placeholder" {
      ShortenedIsLimited(k, origin.value, path, "processes");
      ProcessDrops(m, k, origin.value, path);
    }
    hide Origin, DroppedFromProcess, UnboundInCategory, Omitted;
  }

  lemma UnboundProcess(k: string, path: string)
    ensures UnboundInCategory(k, path, "processes") <==>
            k in PROCESS_EXTENSIONS
            || (IsExchangePath(path) && (k == "quantitativeReference" || k == SOURCE))
            || (IsTimePath(path) && k == DESCRIPTION)
  {
    hide IsExchangePath, IsTimePath, PROCESS_EXTENSIONS;
  }

  lemma OmittedProcess(m: Members, k: string, w: Value)
    ensures Omitted(m, k, w, "processes") <==>
            (k == "variableParameter" && IsIncompleteParameter(w))
            || ((k == "common:dataQualityIndicators" || k == "dataQualityIndicators") && LacksQualityIndicator(w))
  {
  }

  /** What a process does without is what the target format does not bind or the object lacks. */
  lemma ProcessDrops(m: Members, k: string, w: Value, path: string)
    requires Origin(m, k, path, "processes") == Some(w) && k != "unmatched:placeholder"
    ensures DroppedFromProcess(k, Early(k, w, path), path) <==> UnboundInCategory(k, path, "processes") || Omitted(m, k, w, "processes")
  {
    Distinct();
    ProcessNames();
    EarlyDecides(k, w, path);
    assert |"variableParameter"| != |"@uri"| && |"common:dataQualityIndicators"| != |"@uri"| && |"dataQualityIndicators"| != |"@uri"|;
    hide IsExchangePath, IsTimePath, Early;
    assert !(IsExchangePath(path) && k == SOURCE) && !(IsTimePath(path) && k == DESCRIPTION);
    hide Origin;
    UnboundProcess(k, path);
    OmittedProcess(m, k, w);
    hide UnboundInCategory, Omitted, IsIncompleteParameter, LacksQualityIndicator;
  }

  lemma FlowMember(m: Members, path: string, k: string)
    ensures var o := LanguagesMerged(UriMapped(m), path);
            At(FlowAdapted(o, path), k) == Bound(m, k, path, "flows")
  {
    var o := LanguagesMerged(UriMapped(m), path);
    FlowAt(o, path, k);
    EarlyAt(m, path, "flows", k);
    if k in m {
      FlowDrops(m, k, path);
      ShortenedIsLimited(k, m[k], path, "flows");
    }
    hide LanguagesMerged, UriMapped, FlowAdapted, Early, Shortened, FieldOf, Limited, DroppedFromFlow, UnboundInCategory, Omitted;
  }

  lemma FlowDrops(m: Members, k: string, path: string)
    requires k in m
    ensures var o := LanguagesMerged(UriMapped(m), path);
            DroppedFromFlow(o, k, Early(k, m[k], path), path) <==> UnboundInCategory(k, path, "flows") || Omitted(m, k, m[k], "flows")
  {
    EarlyAt(m, path, "flows", "@catId");
    EarlyDecides(k, m[k], path);
    assert |"@classId"| != |"@uri"|;
    hide LanguagesMerged, UriMapped, Early, IsEmptyScalar, EndsWith;
  }

  lemma SourceMember(m: Members, path: string, k: string)
    ensures var o := LanguagesMerged(UriMapped(m), path);
            At(SourceAdapted(o), k) == Bound(m, k, path, "sources")
  {
    var o := LanguagesMerged(UriMapped(m), path);
    SourceAt(o, k);
    EarlyAt(m, path, "sources", k);
    if k in m {
      CitationIsLimited(k, m[k], path);
    }
    hide LanguagesMerged, UriMapped, SourceAdapted, Early, FieldOf, Limited;
  }

  lemma CitationIsLimited(k: string, w: Value, path: string)
    ensures var early := Early(k, w, path);
            Limited(k, FieldOf(k, w, path, "sources"), path, "sources") ==
            if k == "sourceCitation" && early.Str? && |early.value| > 1000 then Str(early.value[..1000]) else early
  {
    MergedTwice(path, k, w);
    MergedTwice(path, k, UriOf(k, w));
    assert |"sourceCitation"| != |"@uri"|;
    assert "sources" !in ["processes", "flows"];
    hide MemberMerged;
  }

  lemma OtherMember(m: Members, path: string, category: string, k: string)
    requires category !in ["processes", "flows", "sources", "lifecyclemodels"]
    ensures var o := LanguagesMerged(UriMapped(m), path);
            At(CategoryAdapted(o, path, category), k) == Bound(m, k, path, category)
  {
    var o := LanguagesMerged(UriMapped(m), path);
    EarlyAt(m, path, category, k);
    NamesHold(METHOD_METADATA, k);
    if k in m {
      EarlyIsLimited(k, m[k], path, category);
    }
    hide LanguagesMerged, UriMapped, Early, FieldOf, Limited, Names;
  }

  lemma ModelNames()
    ensures PROPERTIES != "common:generalComment" && UNIT_PROPERTIES != "common:generalComment"
    ensures UNIT_PROPERTIES != "compliance" && UNIT_PROPERTIES != "@uri" && PROPERTIES != "@uri" && UNIT_PROPERTIES != "@type"
    ensures UNIT_PROPERTIES != "functionalUnitOrOther" && PROPERTIES != "functionalUnitOrOther"
    ensures forall path :: !DroppedFromModel(PROPERTIES, path) && !DroppedFromModel(UNIT_PROPERTIES, path)
    ensures !EndsWith(MODEL_COMMENT_PATH, "/name")
  {
    assert |PROPERTIES| == 14 && |UNIT_PROPERTIES| == 28 && |"common:generalComment"| == 21 && |"functionalUnitOrOther"| == 21;
    assert PROPERTIES[0] == 'f' && UNIT_PROPERTIES[0] == 'f';
    assert MODEL_COMMENT_PATH[|MODEL_COMMENT_PATH| - 1] == 'n' && "/name"[4] == 'e';
  }

  function Trimmed(m: Members, path: string): Members {
    CommentProjected(LanguagesMerged(UriMapped(m), path), path) - Names(MODEL_METADATA) - ModelOmitted(path)
  }

  lemma TrimmedIs(m: Members, path: string, k: string)
    ensures At(Trimmed(m, path), k) ==
            if DroppedFromModel(k, path) || k !in m then None else Some(Commented(k, Early(k, m[k], path), path))
  {
    var o := LanguagesMerged(UriMapped(m), path);
    EarlyAt(m, path, "lifecyclemodels", k);
    CommentAt(o, path, k);
    TrimmedAt(CommentProjected(o, path), path, k);
    hide LanguagesMerged, UriMapped, CommentProjected, Names, ModelOmitted, DroppedFromModel, Commented, Early;
  }

  lemma PropertiesEarly(k: string, w: Value, path: string)
    requires k == PROPERTIES || k == UNIT_PROPERTIES
    ensures Commented(k, Early(k, w, path), path) == Localized(w)
  {
    ModelNames();
    hide HasRepeat, AllFragments;
  }

  lemma CollectedIs(m: Members, path: string)
    requires PROPERTIES in m
    ensures PROPERTIES in Trimmed(m, path) && Combined(Trimmed(m, path)) == Collected(m)
  {
    ModelNames();
    TrimmedIs(m, path, PROPERTIES);
    TrimmedIs(m, path, UNIT_PROPERTIES);
    PropertiesEarly(PROPERTIES, m[PROPERTIES], path);
    if UNIT_PROPERTIES in m {
      PropertiesEarly(UNIT_PROPERTIES, m[UNIT_PROPERTIES], path);
    }
    hide Trimmed, Commented, Early, Localized, DroppedFromModel;
  }

  /** The value that the model steps give to a member they leave. */
  lemma ModelIsLimited(k: string, w: Value, path: string)
    ensures First(k, Commented(k, Early(k, w, path), path)) ==
            Limited(k, FieldOf(k, w, path, "lifecyclemodels"), path, "lifecyclemodels")
  {
    MergedTwice(path, k, w);
    MergedTwice(path, k, UriOf(k, w));
    assert |"common:generalComment"| != |"@uri"| && |"compliance"| != |"@uri"|;
    assert "lifecyclemodels" !in ["processes", "flows"] && "lifecyclemodels" != "sources";
    hide MemberMerged, AllFragments, MixedText;
  }

  lemma NameLeaves(k: string, w: Value, path: string)
    requires EndsWith(path, "/name")
    ensures MemberMerged(path, k, Commented(k, Early(k, w, path), path)) == Commented(k, Early(k, w, path), path)
  {
    ModelNames();
    MergedTwice(path, k, UriOf(k, w));
    hide MemberMerged, AllFragments, EndsWith;
  }

  lemma ModelDrops(k: string, path: string)
    ensures UnboundInCategory(k, path, "lifecyclemodels") <==>
            DroppedFromModel(k, path) || (EndsWith(path, "/name") && k == PROPERTIES) || (IsReviewPath(path) && k == "@type")
  {
    hide EndsWith, IsReviewPath;
  }

  lemma CollectedField(m: Members, path: string)
    requires PROPERTIES in m
    ensures First(UNIT_PROPERTIES, MemberMerged(path, UNIT_PROPERTIES, Collected(m))) ==
            Limited(UNIT_PROPERTIES, FieldOf(UNIT_PROPERTIES, Collected(m), path, "lifecyclemodels"), path, "lifecyclemodels")
  {
    ModelNames();
    MergedTwice(path, UNIT_PROPERTIES, Collected(m));
    hide MemberMerged, AllFragments, MixedText, Localized, AsItems;
  }

  /** After the flow properties have been combined. */
  lemma NamedIs(m: Members, path: string, k: string)
    ensures At(NameMapped(Trimmed(m, path), path), k) ==
            if EndsWith(path, "/name") && PROPERTIES in m && k == UNIT_PROPERTIES then Some(MemberMerged(path, k, Collected(m)))
            else if EndsWith(path, "/name") && PROPERTIES in m && k == PROPERTIES then None
            else At(Trimmed(m, path), k)
  {
    ModelNames();
    TrimmedIs(m, path, k);
    TrimmedIs(m, path, PROPERTIES);
    NameAt(Trimmed(m, path), path, k);
    if PROPERTIES in m {
      CollectedIs(m, path);
    }
    if k in m && EndsWith(path, "/name") {
      NameLeaves(k, m[k], path);
    }
    hide Trimmed, NameMapped, Commented, Early, MemberMerged, Combined, Collected, EndsWith, DroppedFromModel;
  }

  /** The origin of a member of a life cycle model. */
  lemma ModelOrigin(m: Members, path: string, k: string)
    ensures Origin(m, k, path, "lifecyclemodels") ==
            if EndsWith(path, "/name") && PROPERTIES in m && k == UNIT_PROPERTIES then Some(Collected(m))
            else if EndsWith(path, "/name") && PROPERTIES in m && k == PROPERTIES then None
            else At(m, k)
  {
    hide EndsWith, IsExchangePath, IsTimePath, Collected;
    assert "lifecyclemodels"[0] == 'l' && "processes"[0] == 'p';
  }

  lemma ModelMember(m: Members, path: string, k: string)
    ensures var o := LanguagesMerged(UriMapped(m), path);
            At(ModelAdapted(o, path), k) == Bound(m, k, path, "lifecyclemodels")
  {
    var o := LanguagesMerged(UriMapped(m), path);
    ModelAt(o, path, k);
    ModelOrigin(m, path, k);
    NamedIs(m, path, k);
    ModelDrops(k, path);
    assert Trimmed(m, path) == CommentProjected(o, path) - Names(MODEL_METADATA) - ModelOmitted(path);
    hide *;
    ModelStays(m, path, k, o);
  }

  lemma ModelStays(m: Members, path: string, k: string, o: Members)
    requires At(ModelAdapted(o, path), k) ==
             if IsReviewPath(path) && k == "@type" then None
             else match At(NameMapped(Trimmed(m, path), path), k) case None => None case Some(w) => Some(First(k, w))
    requires At(NameMapped(Trimmed(m, path), path), k) ==
             if EndsWith(path, "/name") && PROPERTIES in m && k == UNIT_PROPERTIES then Some(MemberMerged(path, k, Collected(m)))
             else if EndsWith(path, "/name") && PROPERTIES in m && k == PROPERTIES then None
             else At(Trimmed(m, path), k)
    requires Origin(m, k, path, "lifecyclemodels") ==
             if EndsWith(path, "/name") && PROPERTIES in m && k == UNIT_PROPERTIES then Some(Collected(m))
             else if EndsWith(path, "/name") && PROPERTIES in m && k == PROPERTIES then None
             else At(m, k)
    requires UnboundInCategory(k, path, "lifecyclemodels") <==>
             DroppedFromModel(k, path) || (EndsWith(path, "/name") && k == PROPERTIES) || (IsReviewPath(path) && k == "@type")
    ensures At(ModelAdapted(o, path), k) == Bound(m, k, path, "lifecyclemodels")
  {
    Distinct();
    ModelNames();
    TrimmedIs(m, path, k);
    hide ModelAdapted, Trimmed, NameMapped, Commented, Early, FieldOf, Limited, First, MemberMerged, Collected, Origin,
      UnboundInCategory, EndsWith, IsReviewPath, DroppedFromModel;
    if EndsWith(path, "/name") && PROPERTIES in m && k == UNIT_PROPERTIES {
      CollectedField(m, path);
    } else if k in m {
      ModelIsLimited(k, m[k], path);
    }
  }

  // ---------- the object ----------

  lemma CategoryMember(m: Members, path: string, category: string, k: string)
    ensures var o := LanguagesMerged(UriMapped(Wrapped(m, path, category)), path);
            !IsExtensionKey(k) ==> At(CategoryAdapted(o, path, category), k) == Bound(m, k, path, category)
  {
    hide LanguagesMerged, UriMapped, ExchangeMapped, ProcessAdapted, FlowAdapted, ModelAdapted, SourceAdapted, Bound;
    if category == "processes" {
      assert IsExtensionKey("unmatched:placeholder");
      ProcessMember(m, path, k);
    } else if category == "flows" {
      FlowMember(m, path, k);
    } else if category == "lifecyclemodels" {
      ModelMember(m, path, k);
    } else if category == "sources" {
      SourceMember(m, path, k);
    } else {
      OtherMember(m, path, category, k);
    }
  }

  /** The steps on an object give exactly the members that the rules make of its own. */
  lemma ShallowIsMade(m: Members, path: string, category: string, k: string, y: Value)
    ensures MemberMade(m, k, y, path, category) <==>
            k in Shallow(m, path, category) && Shallow(m, path, category)[k] == y
  {
    var o := LanguagesMerged(UriMapped(Wrapped(m, path, category)), path);
    CategoryMember(m, path, category, k);
    TailAt(CategoryAdapted(o, path, category), k);
    MemberMadeIs(m, k, y, path, category);
    hide LanguagesMerged, UriMapped, ExchangeMapped, CategoryAdapted, MemberMade, Origin, UnboundInCategory, Omitted, FieldOf, Limited,
      TextProjected, IsEmptyScalar, IsEmptyOptional, IsExtensionKey, TextsProjected, ExtensionKeys, EmptyArrayKeys, EmptyText, EmptyOptionals;
    assert At(Shallow(m, path, category), k) == Projected(m, k, path, category);
  }

  // ---------- the whole document ----------

  /** The link of an object means what it meant. */
  ghost predicate LinkKept(m: Members, out: Members) {
    "@uri" in m && m["@uri"].Str? ==>
      "@uri" in out && Normalize(out["@uri"], "@uri") == Normalize(m["@uri"], "@uri")
  }

  /** No member that the rules make is missing, but for optional elements that have become empty. */
  ghost predicate NoneMissing(m: Members, out: Members, path: string, category: string) {
    forall k, y :: MemberMade(m, k, y, path, category) && k !in out ==> k in OPTIONAL_ELEMENTS && y.Obj?
  }

  /** `out` is what the rules make of `v`: every member of an object is made of a member of its own, and everything
      below it likewise; items and scalars stay in place. */
  ghost predicate Corresponds(v: Value, out: Value, path: string, category: string)
    decreases out, 0
  {
    match v
    case Obj(m) =>
      out.Obj? && LinkKept(m, out.members) && NoneMissing(m, out.members, path, category) &&
      forall k :: k in out.members ==> MemberCorresponds(m, k, out.members[k], path, category)
    case Arr(items) =>
      out.Arr? && |out.items| == |items| &&
      forall i :: 0 <= i < |items| ==> Corresponds(items[i], out.items[i], Join(path, Decimal(i)), category)
    case _ => out == v
  }

  ghost predicate MemberCorresponds(m: Members, k: string, z: Value, path: string, category: string)
    decreases z, 1
  {
    exists y :: MemberMade(m, k, y, path, category) && Corresponds(y, z, Join(path, Escape(k)), category)
  }

  /** A link to an XML file stands for the one to the JSON file of that name. */
  lemma LinkMeansTheSame(w: Value, y: Value, path: string, category: string)
    requires w.Str? && ValueMade("@uri", w, y, path, category)
    ensures y.Str? && Normalize(y, "@uri") == Normalize(w, "@uri")
  {
    ValueMadeIs("@uri", w, y, path, category);
    NamesApart();
    assert |"@uri"| != |"common:generalComment"| && |"@uri"| != |"compliance"|;
    assert FieldOf("@uri", w, path, category) == w;
    var uri := w.value;
    if EndsWith(uri, ".json") {
      var prefix := uri[..|uri| - 5];
      assert EndsWith(prefix + ".xml", ".xml") && (prefix + ".xml")[..|prefix|] == prefix;
      assert uri == prefix + ".json";
      assert uri[|uri| - 1] == 'n' && !EndsWith(uri, ".xml");
    }
  }

  /** No step takes a link away. */
  lemma LinkIsMade(m: Members, path: string, category: string) returns (y: Value)
    requires "@uri" in m && m["@uri"].Str?
    ensures MemberMade(m, "@uri", y, path, category)
    ensures y.Str? && Normalize(y, "@uri") == Normalize(m["@uri"], "@uri")
  {
    var w := m["@uri"];
    y := TextProjected("@uri", Limited("@uri", FieldOf("@uri", w, path, category), path, category));
    ValueMadeIs("@uri", w, y, path, category);
    hide ValueMade;
    LinkMeansTheSame(w, y, path, category);
    hide FieldOf, Limited, Origin, Omitted, Unbound, Normalize;
    LinkIsItsOrigin(m, path, category);
    LinkIsBound(path, category);
    assert |"@uri"| != |"#text"|;
    hide IsEmptyScalar;
  }

  lemma LinkIsItsOrigin(m: Members, path: string, category: string)
    requires "@uri" in m
    ensures Origin(m, "@uri", path, category) == Some(m["@uri"])
    ensures !Omitted(m, "@uri", m["@uri"], category)
  {
    Distinct();
    ProcessNames();
    ModelNames();
    hide WrapsSource, RenamesDescription, CollectsProperties, IsEmptyScalar, HasNonemptyChild;
    assert |"@uri"| != |"variableParameter"| && |"@uri"| != |"common:dataQualityIndicators"| && |"@uri"| != |"dataQualityIndicators"|
           && |"@uri"| != |"@classId"|;
  }

  lemma LinkIsBound(path: string, category: string)
    ensures !Unbound("@uri", path, category)
  {
    hide IsExchangePath, IsTimePath, EndsWith, IsReviewPath;
    assert "@uri"[0] == '@' && |"@uri"| != |"@type"|;
  }
}
