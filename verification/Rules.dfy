/** What each projection step makes of one object, and what the eILCD surface asks of the result. */
module Rules {
  import opened Json
  import opened Pointer
  import opened XmlText
  import opened Languages

  type Members = map<string, Value>

  const USIZE_MAX: nat := 0xFFFF_FFFF_FFFF_FFFF

  const EXCHANGE_PATH := "/processDataSet/exchanges/exchange"

  predicate IsExchangePath(path: string) {
    path == EXCHANGE_PATH
    || (EXCHANGE_PATH + "/" <= path
        && var index := ParseIndex(path[|EXCHANGE_PATH| + 1..]); index.Some? && index.value <= USIZE_MAX)
  }

  predicate IsTimePath(path: string) {
    EndsWith(path, "/processInformation/time")
  }

  /** The last piece of a path and the piece before it. */
  predicate IsReviewPath(path: string) {
    var parts := SplitSlash(path);
    var last := parts[|parts| - 1];
    last == "review"
    || (ParseIndex(last).Some? && ParseIndex(last).value <= USIZE_MAX && |parts| > 1 && parts[|parts| - 2] == "review")
  }

  predicate IsEmptyScalar(v: Value) {
    v.Null? || (v.Str? && Trim(v.value) == "")
  }

  predicate HasNonemptyChild(v: Value, key: string) {
    v.Obj? && key in v.members
    && match v.members[key]
       case Arr(items) => items != []
       case Null => false
       case _ => true
  }

  function AsItems(v: Value): seq<Value> {
    match v
    case Arr(items) => items
    case Null => []
    case _ => [v]
  }

  function Names(keys: seq<string>): set<string> {
    set k | k in keys
  }

  // ---------- structure ----------

  predicate Nests(v: Value) {
    v.Obj? || v.Arr?
  }

  /** XML has an element for the value; it has none for an array of empty arrays. */
  predicate HasElement(v: Value)
    decreases v
  {
    v.Arr? ==> exists i :: 0 <= i < |v.items| && HasElement(v.items[i])
  }

  /** How many items an array holds at any depth of arrays, itself included, and how heavy a string is. */
  function Size(v: Value): nat
    decreases v, 0
  {
    match v
    case Arr(items) => 1 + SizeAll(items)
    case Str(text) => 1 + Weight(text)
    case _ => 1
  }

  function SizeAll(items: seq<Value>): nat
    decreases items, 1
  {
    if items == [] then 0 else SizeAll(items[..|items| - 1]) + Size(items[|items| - 1])
  }

  // ---------- names that the target format does not bind ----------

  const PROCESS_EXTENSIONS: seq<string> :=
    ["LCIAResult", "generatedFromLifecycleModel", "flowProperties", "common:reviewDetails", "reviewDetails"]

  const FLOW_EXTENSIONS: seq<string> :=
    ["common:dateOfLastRevision", "common:documentationCompliance", "common:methodologicalCompliance",
     "common:nomenclatureCompliance", "common:qualityCompliance", "common:reviewCompliance",
     "functionalUnitFlowProperties"]

  const FLOW_PUBLICATION: seq<string> :=
    ["common:accessRestrictions", "common:copyright", "common:licenseType"]

  const MODEL_METADATA: seq<string> :=
    ["common:workflowAndPublicationStatus", "common:dateOfLastRevision"]

  const MODEL_SOURCES: seq<string> :=
    ["common:referenceToConvertedOriginalDataSetFrom", "common:referenceToDataSetUseApproval"]

  const MODEL_AUTHORITIES: seq<string> :=
    ["common:referenceToRegistrationAuthority", "referenceToRegistrationAuthority"]

  const METHOD_METADATA: seq<string> := ["common:scope", "common:dateOfLastRevision"]

  const SOURCE_METADATA: seq<string> :=
    ["common:dateOfLastRevision", "common:copyright", "common:accessRestrictions", "common:licenseType",
     "common:referenceToPersonOrEntityEnteringTheData"]

  const OPTIONAL_ELEMENTS: set<string> := {"geography", "variableParameter", "common:other"}

  predicate IsExtensionKey(key: string) {
    "tidasimport:" <= key || "unmatched:" <= key
  }

  // ---------- single steps ----------

  function ExchangeMapped(o: Members, path: string): Members {
    if IsExchangePath(path) && "referenceToDataSource" in o then
      (o - {"referenceToDataSource"})
        ["referencesToDataSource" := Obj(map["referenceToDataSource" := o["referenceToDataSource"]])]
    else o
  }

  function UriMapped(o: Members): Members {
    if "@uri" in o && o["@uri"].Str? && EndsWith(o["@uri"].value, ".json") then
      var uri := o["@uri"].value;
      o["@uri" := Str(uri[..|uri| - 5] + ".xml")]
    else o
  }

  const REPEATABLE_PATH := "/processDataSet/processInformation/quantitativeReference"

  /** Fragments of this one field may repeat a language in the target format. */
  predicate MayRepeat(path: string, key: string) {
    path == REPEATABLE_PATH && key == "functionalUnitOrOther"
  }

  function MemberMerged(path: string, key: string, v: Value): Value {
    if !MayRepeat(path, key) && v.Arr? && HasRepeat(v.items) then Arr(Merged(v.items)) else v
  }

  function LanguagesMerged(o: Members, path: string): Members {
    map k | k in o :: MemberMerged(path, k, o[k])
  }

  predicate TakesShortText(path: string) {
    Contains(path, "/generalComment") || Contains(path, "/comment") || Contains(path, "/baseName")
  }

  function Truncated(o: Members, path: string, maximum: nat): Members {
    if TakesShortText(path) && "#text" in o && o["#text"].Str? && |o["#text"].value| > maximum then
      o["#text" := Str(o["#text"].value[..maximum])]
    else o
  }

  function TimeMapped(o: Members, path: string): Members {
    if IsTimePath(path) && "timeRepresentativenessDescription" in o then
      (o - {"timeRepresentativenessDescription"})
        ["common:timeRepresentativenessDescription" := o["timeRepresentativenessDescription"]]
    else o
  }

  predicate IsIncompleteParameter(v: Value) {
    !(v.Obj? && ("@name" in v.members || "name" in v.members))
  }

  predicate LacksQualityIndicator(v: Value) {
    !HasNonemptyChild(v, "common:dataQualityIndicator") && !HasNonemptyChild(v, "dataQualityIndicator")
  }

  /** Process members dropped besides the fixed list. */
  function ProcessOmitted(o: Members, path: string): set<string> {
    (if IsExchangePath(path) then {"quantitativeReference"} else {})
    + (if "variableParameter" in o && IsIncompleteParameter(o["variableParameter"]) then {"variableParameter"} else {})
    + (set k | k in {"common:dataQualityIndicators", "dataQualityIndicators"} && k in o && LacksQualityIndicator(o[k]))
  }

  function ProcessAdapted(o: Members, path: string): Members {
    var named := TimeMapped(o, path);
    Truncated(named - Names(PROCESS_EXTENSIONS) - ProcessOmitted(named, path), path, 500) - {"unmatched:placeholder"}
  }

  function FlowOmitted(o: Members, path: string): set<string> {
    (if "@classId" in o && IsEmptyScalar(o["@classId"]) && "@catId" in o then {"@classId"} else {})
    + (if EndsWith(path, "/modellingAndValidation") then {"validation"} else {})
    + (if EndsWith(path, "/publicationAndOwnership") then Names(FLOW_PUBLICATION) else {})
    + (if EndsWith(path, "/dataSetInformation") then {"common:shortName"} else {})
  }

  function FlowAdapted(o: Members, path: string): Members {
    Truncated(o - Names(FLOW_EXTENSIONS) - FlowOmitted(o, path), path, 500)
  }

  const MODEL_COMMENT_PATH := "/lifeCycleModelDataSet/lifeCycleModelInformation/dataSetInformation"

  /** A comment fragment with exactly a language and a text. */
  predicate IsCommentFragment(v: Value) {
    v.Obj? && (forall k :: k in v.members ==> k == "@xml:lang" || k == "#text")
    && "@xml:lang" in v.members && v.members["@xml:lang"].Str?
    && "#text" in v.members && v.members["#text"].Str?
  }

  predicate AllFragments(items: seq<Value>) {
    forall i :: 0 <= i < |items| ==> IsCommentFragment(items[i])
  }

  function FragmentText(item: Value): string
    requires IsCommentFragment(item)
  {
    "[" + item.members["@xml:lang"].value + "]\n" + item.members["#text"].value
  }

  /** All fragments labelled with their language, separated by blank lines. */
  function MixedText(items: seq<Value>): string
    requires AllFragments(items)
  {
    if items == [] then ""
    else if |items| == 1 then FragmentText(items[0])
    else MixedText(items[..|items| - 1]) + "\n\n" + FragmentText(items[|items| - 1])
  }

  predicate NeedsMixedComment(o: Members, path: string) {
    path == MODEL_COMMENT_PATH && "common:generalComment" in o && o["common:generalComment"].Arr?
    && |o["common:generalComment"].items| >= 2 && AllFragments(o["common:generalComment"].items)
  }

  function CommentProjected(o: Members, path: string): Members {
    if NeedsMixedComment(o, path) then
      o["common:generalComment" :=
        Obj(map["@xml:lang" := Str("mul"), "#text" := Str(MixedText(o["common:generalComment"].items))])]
    else o
  }

  function ModelOmitted(path: string): set<string> {
    (if EndsWith(path, "/dataEntryBy") then Names(MODEL_SOURCES) else {})
    + (if EndsWith(path, "/publicationAndOwnership") then Names(MODEL_AUTHORITIES) else {})
  }

  function NameMapped(o: Members, path: string): Members {
    if EndsWith(path, "/name") && "flowProperties" in o then
      var earlier := if "functionalUnitFlowProperties" in o then AsItems(o["functionalUnitFlowProperties"]) else [];
      LanguagesMerged(
        (o - {"flowProperties", "functionalUnitFlowProperties"})
          ["functionalUnitFlowProperties" := Arr(earlier + AsItems(o["flowProperties"]))],
        path)
    else o
  }

  function PrimaryCompliance(o: Members): Members {
    if "compliance" in o && o["compliance"].Arr? && |o["compliance"].items| > 1
    then o["compliance" := o["compliance"].items[0]] else o
  }

  function ModelAdapted(o: Members, path: string): Members {
    var trimmed := CommentProjected(o, path) - Names(MODEL_METADATA) - ModelOmitted(path);
    var named := NameMapped(trimmed, path);
    PrimaryCompliance(if IsReviewPath(path) then named - {"@type"} else named)
  }

  function SourceAdapted(o: Members): Members {
    var kept := o - Names(SOURCE_METADATA);
    if "sourceCitation" in kept && kept["sourceCitation"].Str? && |kept["sourceCitation"].value| > 1000
    then kept["sourceCitation" := Str(kept["sourceCitation"].value[..1000])] else kept
  }

  function CategoryAdapted(o: Members, path: string, category: string): Members {
    match category
    case "processes" => ProcessAdapted(o, path)
    case "flows" => FlowAdapted(o, path)
    case "lciamethods" => o - Names(METHOD_METADATA)
    case "lifecyclemodels" => ModelAdapted(o, path)
    case "sources" => SourceAdapted(o)
    case _ => o
  }

  /** The steps of the category that rename a member, and so record the whole object first. */
  predicate CategoryRenames(o: Members, path: string, category: string) {
    match category
    case "processes" => IsTimePath(path) && "timeRepresentativenessDescription" in o
    case "lifecyclemodels" => EndsWith(path, "/name") && "flowProperties" in o
    case _ => false
  }

  predicate Renames(o: Members, path: string, category: string) {
    (category == "processes" && IsExchangePath(path) && "referenceToDataSource" in o) || CategoryRenames(o, path, category)
  }

  /** An empty array named "0" that no renaming hides: the steps remove it. */
  predicate RemovesZero(o: Members, path: string, category: string) {
    !Renames(o, path, category) && "0" in o && o["0"] == Arr([])
  }

  function ExtensionKeys(o: Members): set<string> {
    set k | k in o && IsExtensionKey(k)
  }

  function EmptyArrayKeys(o: Members): set<string> {
    set k | k in o && o[k] == Arr([])
  }

  function TextProjected(key: string, v: Value): Value {
    if v.Str? && !("@" <= key) then Str(ProjectText(v.value)) else v
  }

  function TextsProjected(o: Members): Members {
    map k | k in o :: TextProjected(k, o[k])
  }

  function EmptyText(o: Members): set<string> {
    if "#text" in o && IsEmptyScalar(o["#text"]) then {"#text"} else {}
  }

  predicate IsEmptyOptional(key: string, v: Value) {
    key in OPTIONAL_ELEMENTS && v.Obj?
    && (v.members == map[] || (key == "common:other" && forall name :: name in v.members ==> "@" <= name))
  }

  function EmptyOptionals(o: Members): set<string> {
    set k | k in o && IsEmptyOptional(k, o[k])
  }

  /** Everything adapt_object does to one object before it turns to the members. */
  function Shallow(o: Members, path: string, category: string): Members {
    var mapped := if category == "processes" then ExchangeMapped(o, path) else o;
    var adapted := CategoryAdapted(LanguagesMerged(UriMapped(mapped), path), path, category);
    var bound := adapted - ExtensionKeys(adapted);
    var filled := TextsProjected(bound - EmptyArrayKeys(bound));
    var texts := filled - EmptyText(filled);
    texts - EmptyOptionals(texts)
  }
}
