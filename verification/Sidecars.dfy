/** The parts of the path around the dataset: process field types and the envelope sidecar. */
module Sidecars {
  import opened Json
  import opened Pointer

  // ---------- process field types ----------

  const I64_MAX: int := 0x7FFF_FFFF_FFFF_FFFF

  /** Rust's signed 64-bit parser. */
  function ParseSigned(text: string): Option<int> {
    var digits := if text != "" && (text[0] == '+' || text[0] == '-') then text[1..] else text;
    if digits == "" || !AllDigits(digits) then None
    else
      var n: int := DigitsValue(digits);
      if text[0] == '-' then (if n <= I64_MAX + 1 then Some(-n) else None)
      else if n <= I64_MAX then Some(n) else None
  }

  function PrintSigned(n: int): string {
    if n < 0 then "-" + Decimal(-n) else Decimal(n)
  }

  /** Decimal digits without a leading zero, after an optional minus sign; not "-0". */
  predicate CanonicalDecimal(text: string) {
    var digits := if text != "" && text[0] == '-' then text[1..] else text;
    digits != "" && AllDigits(digits) && (digits[0] == '0' ==> text == "0")
  }

  /** A year that is an integer is a canonical decimal. */
  predicate CanonicalYear(text: string) {
    ParseSigned(text).Some? ==> CanonicalDecimal(text)
  }

  lemma {:induction false} DecimalStart(n: nat)
    ensures Decimal(n)[0] == '0' <==> n == 0
    ensures n == 0 ==> Decimal(n) == "0"
  {
    if n >= 10 {
      DecimalStart(n / 10);
    }
  }

  lemma {:induction false} DecimalStep(before: nat, digit: nat)
    requires digit < 10
    ensures Decimal(10 * before + digit) == (if before == 0 then "" else Decimal(before)) + [Digit(digit)]
  {
    assert (10 * before + digit) / 10 == before && (10 * before + digit) % 10 == digit;
  }

  lemma {:induction false} DigitsStep(digits: string)
    requires digits != "" && AllDigits(digits)
    ensures var last := digits[|digits| - 1] as int - '0' as int;
            && 0 <= last < 10 && Digit(last) == digits[|digits| - 1]
            && DigitsValue(digits) == 10 * DigitsValue(digits[..|digits| - 1]) + last
  {
  }

  /** Digits without a leading zero are how their value is printed. */
  lemma {:induction false} PrintedDigits(digits: string)
    requires digits != "" && AllDigits(digits) && (digits[0] == '0' ==> digits == "0")
    ensures Decimal(DigitsValue(digits)) == digits
    ensures digits != "0" ==> DigitsValue(digits) > 0
  {
    hide Decimal, Digit;
    var init := digits[..|digits| - 1];
    var last := digits[|digits| - 1] as int - '0' as int;
    DigitsStep(digits);
    DecimalStep(DigitsValue(init), last);
    assert digits == init + [Digit(last)];
    if init == "" {
      assert DigitsValue(init) == 0;
    } else {
      assert init[0] == digits[0];
      PrintedDigits(init);
    }
  }

  /** Printing a parsed integer gives the text back exactly when the text is a canonical decimal. */
  /** The digits after the sign. */
  function DigitsOf(text: string): string {
    if text != "" && (text[0] == '+' || text[0] == '-') then text[1..] else text
  }

  lemma {:induction false} CanonicalIsPrinted(text: string)
    requires ParseSigned(text).Some? && CanonicalDecimal(text)
    ensures PrintSigned(ParseSigned(text).value) == text
  {
    var digits := DigitsOf(text);
    SignedValue(text);
    PrintedDigits(digits);
    DecimalStart(DigitsValue(digits));
    assert text[0] == '-' ==> text == "-" + digits;
    assert text[0] != '-' ==> text == digits;
    hide DigitsValue, AllDigits, Decimal, ParseSigned, CanonicalDecimal;
  }

  lemma SignedValue(text: string)
    requires ParseSigned(text).Some?
    ensures text != "" && DigitsOf(text) != "" && AllDigits(DigitsOf(text))
    ensures ParseSigned(text).value == (if text[0] == '-' then -1 else 1) * DigitsValue(DigitsOf(text))
  {
    hide DigitsValue, AllDigits;
  }

  lemma {:induction false} OthersAreNotPrinted(text: string)
    requires ParseSigned(text).Some? && !CanonicalDecimal(text)
    ensures PrintSigned(ParseSigned(text).value) != text
  {
    var digits := DigitsOf(text);
    var n := DigitsValue(digits);
    DecimalStart(n);
    hide DigitsValue, Decimal;
    if text[0] == '+' {
      assert Decimal(n)[0] != '+';
    } else if text[0] == '-' {
      assert digits[0] == '0';
      assert n == 0 ==> PrintSigned(0)[0] != '-';
      assert n > 0 ==> ("-" + Decimal(n))[1] == Decimal(n)[0];
    }
  }

  lemma {:induction false} PrintedIffCanonical(text: string)
    requires ParseSigned(text).Some?
    ensures PrintSigned(ParseSigned(text).value) == text <==> CanonicalDecimal(text)
  {
    if CanonicalDecimal(text) {
      CanonicalIsPrinted(text);
    } else {
      OthersAreNotPrinted(text);
    }
    hide *;
  }

  function TypedYear(v: Value): Value {
    if v.Str? && ParseSigned(v.value).Some? then Num(PrintSigned(ParseSigned(v.value).value)) else v
  }

  function EmptyMethod(v: Value): Value {
    if v.Null? then Obj(map[]) else v
  }

  /** Changes one member of an object, when it is there. */
  function AtMember(v: Value, key: string, f: Value -> Value): Value {
    if v.Obj? && key in v.members then Obj(v.members[key := f(v.members[key])]) else v
  }

  function TypedTime(v: Value): Value {
    AtMember(AtMember(v, "common:referenceYear", TypedYear), "common:dataSetValidUntil", TypedYear)
  }

  function TypedInformation(v: Value): Value {
    AtMember(v, "time", TypedTime)
  }

  function TypedValidation(v: Value): Value {
    AtMember(v, "LCIMethodAndAllocation", EmptyMethod)
  }

  function TypedDataset(v: Value): Value {
    AtMember(AtMember(v, "processInformation", TypedInformation), "modellingAndValidation", TypedValidation)
  }

  /** restore_process_schema_types. */
  function ProcessTypes(document: Value): Value {
    AtMember(document, "processDataSet", TypedDataset)
  }

  /** The value below one member after another, if there is one. */
  function Lookup(v: Value, keys: seq<string>): Option<Value>
    decreases |keys|
  {
    if keys == [] then Some(v)
    else if v.Obj? && keys[0] in v.members then Lookup(v.members[keys[0]], keys[1..])
    else None
  }

  const TIME_KEYS: seq<string> := ["processDataSet", "processInformation", "time"]

  predicate YearCanonicalAt(normal: Value, key: string) {
    var year := Lookup(normal, TIME_KEYS + [key]);
    year.Some? && year.value.Str? ==> CanonicalYear(year.value.value)
  }

  /** The years of a normalized process are canonical decimals wherever they are integers. */
  predicate YearsCanonical(normal: Value) {
    YearCanonicalAt(normal, "common:referenceYear") && YearCanonicalAt(normal, "common:dataSetValidUntil")
  }

  /** Typing one year keeps its meaning exactly when it is a canonical decimal. */
  lemma {:induction false} TypedYearIff(v: Value, field: string)
    requires field != "@uri"
    ensures Normalize(TypedYear(v), field) == Normalize(v, field) <==> (v.Str? ==> CanonicalYear(v.value))
  {
    hide ParseSigned, PrintSigned, CanonicalDecimal;
    if v.Str? && ParseSigned(v.value).Some? {
      PrintedIffCanonical(v.value);
    }
  }

  lemma {:induction false} PaddedValue(digits: string)
    requires AllDigits(digits)
    ensures DigitsValue("0" + digits) == DigitsValue(digits)
  {
    var padded := "0" + digits;
    if digits == "" {
      assert padded[..0] == "";
    } else {
      PaddedValue(digits[..|digits| - 1]);
      assert padded[..|padded| - 1] == "0" + digits[..|digits| - 1];
    }
  }

  /** A year with a leading zero loses it, so it comes back as another text: "02020" as "2020". */
  lemma {:induction false} PaddedYearChanges(digits: string, field: string)
    requires field != "@uri" && digits != "" && digits[0] != '0' && AllDigits(digits) && DigitsValue(digits) <= I64_MAX
    ensures Normalize(TypedYear(Str("0" + digits)), field) == Str(digits) != Normalize(Str("0" + digits), field)
  {
    PaddedValue(digits);
    PrintedDigits(digits);
    assert ParseSigned("0" + digits) == Some(DigitsValue(digits));
  }

  lemma {:induction false} PaddedYearExample()
    ensures Normalize(TypedYear(Str("02020")), "common:referenceYear") == Str("2020")
  {
    hide TypedYear, Normalize;
    assert "0" + "2020" == "02020";
    assert "2020"[..3] == "202" && "202"[..2] == "20" && "20"[..1] == "2" && "2"[..0] == "";
    assert DigitsValue("202") == 202;
    assert |"common:referenceYear"| != |"@uri"|;
    PaddedYearChanges("2020", "common:referenceYear");
  }

  lemma {:induction false} AtMemberNormal(v: Value, key: string, f: Value -> Value, field: string)
    requires v.Obj? && key in v.members ==> Normalize(f(v.members[key]), key) == Normalize(v.members[key], key)
    ensures Normalize(AtMember(v, key, f), field) == Normalize(v, field)
  {
    if v.Obj? && key in v.members {
      var m := v.members;
      var n := m[key := f(m[key])];
      assert key in n && key in m;
      assert Normalize(Obj(n), field).members == Normalize(Obj(m), field).members;
    }
  }

  /** A member of an object is the member of its normal form. */
  lemma {:induction false} LookupNormal(v: Value, key: string, field: string, rest: seq<string>)
    requires v.Obj? && key in v.members
    ensures Lookup(Normalize(v, field), [key] + rest) == Lookup(Normalize(v.members[key], key), rest)
  {
    assert ([key] + rest)[1..] == rest;
  }

  predicate YearFits(time: Value, key: string) {
    time.Obj? && key in time.members && time.members[key].Str? ==> CanonicalYear(time.members[key].value)
  }

  lemma {:induction false} TimeNormal(time: Value)
    requires forall key :: key in ["common:referenceYear", "common:dataSetValidUntil"] ==> YearFits(time, key)
    ensures Normalize(TypedTime(time), "time") == Normalize(time, "time")
  {
    hide CanonicalYear;
    var a, b := "common:referenceYear", "common:dataSetValidUntil";
    assert |a| != |b| && |a| != |"@uri"| && |b| != |"@uri"|;
    assert a in [a, b] && b in [a, b];
    if time.Obj? && a in time.members {
      TypedYearIff(time.members[a], a);
    }
    AtMemberNormal(time, a, TypedYear, "time");
    var first := AtMember(time, a, TypedYear);
    if first.Obj? && b in first.members {
      assert first.members[b] == time.members[b];
      TypedYearIff(first.members[b], b);
    }
    AtMemberNormal(first, b, TypedYear, "time");
  }

  lemma {:induction false} InformationNormal(dataset: Value, information: Value)
    requires dataset.Obj? && "processInformation" in dataset.members && information == dataset.members["processInformation"]
    requires YearsCanonical(Normalize(Obj(map["processDataSet" := dataset]), ""))
    ensures Normalize(TypedInformation(information), "processInformation") == Normalize(information, "processInformation")
  {
    if information.Obj? && "time" in information.members {
      var time := information.members["time"];
      forall key | key in ["common:referenceYear", "common:dataSetValidUntil"]
        ensures YearFits(time, key)
      {
        var document := Obj(map["processDataSet" := dataset]);
        assert TIME_KEYS + [key] == ["processDataSet"] + (["processInformation"] + (["time"] + ([key] + [])));
        LookupNormal(document, "processDataSet", "", ["processInformation"] + (["time"] + ([key] + [])));
        LookupNormal(dataset, "processInformation", "processDataSet", ["time"] + ([key] + []));
        LookupNormal(information, "time", "processInformation", [key] + []);
        if time.Obj? && key in time.members {
          LookupNormal(time, key, "time", []);
        }
        assert |key| != |"@uri"|;
      }
      TimeNormal(time);
    }
    AtMemberNormal(information, "time", TypedTime, "processInformation");
  }

  /** Restoring process field types does not change what a document means, when its years are canonical decimals. */
  lemma {:induction false} ProcessTypesNormal(document: Value)
    requires YearsCanonical(Normalize(document, ""))
    ensures Normalize(ProcessTypes(document), "") == Normalize(document, "")
  {
    hide YearsCanonical, TypedInformation;
    if document.Obj? && "processDataSet" in document.members {
      var dataset := document.members["processDataSet"];
      if dataset.Obj? && "processInformation" in dataset.members {
        OnlyDataset(document, dataset);
        InformationNormal(dataset, dataset.members["processInformation"]);
      }
      AtMemberNormal(dataset, "processInformation", TypedInformation, "processDataSet");
      var typed := AtMember(dataset, "processInformation", TypedInformation);
      if typed.Obj? && "modellingAndValidation" in typed.members {
        AtMemberNormal(typed.members["modellingAndValidation"], "LCIMethodAndAllocation", EmptyMethod, "modellingAndValidation");
      }
      AtMemberNormal(typed, "modellingAndValidation", TypedValidation, "processDataSet");
    }
    AtMemberNormal(document, "processDataSet", TypedDataset, "");
  }

  lemma {:induction false} OnlyDataset(document: Value, dataset: Value)
    requires document.Obj? && "processDataSet" in document.members && dataset == document.members["processDataSet"]
    requires YearsCanonical(Normalize(document, ""))
    ensures YearsCanonical(Normalize(Obj(map["processDataSet" := dataset]), ""))
  {
    var alone := Obj(map["processDataSet" := dataset]);
    forall key
      ensures Lookup(Normalize(alone, ""), TIME_KEYS + [key]) == Lookup(Normalize(document, ""), TIME_KEYS + [key])
    {
      assert TIME_KEYS + [key] == ["processDataSet"] + ["processInformation", "time", key];
      LookupNormal(document, "processDataSet", "", ["processInformation", "time", key]);
      LookupNormal(alone, "processDataSet", "", ["processInformation", "time", key]);
    }
  }

  // ---------- the envelope sidecar ----------

  datatype EnvelopeError =
    | RootNotObject
    | RootCount(count: nat)
    | MissingDatasetRoot(expected: string)
    | EnvelopeKeyCollision(key: string)

  datatype SplitDocument = SplitDocument(document: Value, envelope: Option<map<string, Value>>)

  /** split_envelope: members beside the dataset root go to a sidecar. */
  function SplitEnvelope(document: Value, expectedRoot: Option<string>): Result<SplitDocument, EnvelopeError> {
    if !document.Obj? then Err(RootNotObject)
    else
      var m := document.members;
      if |m| == 1 then Ok(SplitDocument(document, None))
      else match expectedRoot
        case None => Err(RootCount(|m|))
        case Some(root) =>
          if root !in m then Err(MissingDatasetRoot(root))
          else Ok(SplitDocument(Obj(map[root := m[root]]), Some(m - {root})))
  }

  /** One member is the dataset and the others go along with it; a single member needs no name. */
  ghost predicate Splits(document: Value, root: Option<string>, s: SplitDocument) {
    && document.Obj? && s.document.Obj? && |s.document.members| == 1
    && document.members == s.document.members + (match s.envelope case None => map[] case Some(others) => others)
    && (s.envelope.None? <==> |document.members| == 1)
    && (s.envelope.Some? ==>
          root.Some? && s.document.members.Keys == {root.value} && root.value !in s.envelope.value)
  }

  /** Why a document cannot be split. */
  predicate SplitFault(document: Value, root: Option<string>, e: EnvelopeError) {
    if !document.Obj? then e == RootNotObject
    else if |document.members| == 1 then false
    else if root.None? then e == RootCount(|document.members|)
    else root.value !in document.members && e == MissingDatasetRoot(root.value)
  }

  lemma SplitApart(m: map<string, Value>, name: string)
    requires name in m && |m| != 1
    ensures var d := map[name := m[name]];
            |d| == 1 && d.Keys == {name} && name !in m - {name} && m == d + (m - {name})
  {
  }

  lemma SplitHolds(document: Value, root: Option<string>)
    requires SplitEnvelope(document, root).Ok?
    ensures Splits(document, root, SplitEnvelope(document, root).value)
  {
    var m := document.members;
    if |m| == 1 {
      assert m + map[] == m;
    } else {
      SplitApart(m, root.value);
    }
  }

  lemma {:induction false} SplitOnly(document: Value, root: Option<string>, s: SplitDocument)
    requires Splits(document, root, s)
    ensures SplitEnvelope(document, root) == Ok(s)
  {
    var m, d := document.members, s.document.members;
    match s.envelope
    case None => assert m == d;
    case Some(others) =>
      assert root.value in d && root.value in m && m[root.value] == d[root.value];
      assert others == m - {root.value};
      assert d == map[root.value := m[root.value]];
  }

  lemma {:induction false} SplitIff(document: Value, root: Option<string>, s: SplitDocument)
    ensures SplitEnvelope(document, root) == Ok(s) <==> Splits(document, root, s)
    ensures SplitEnvelope(document, root).Err? ==> SplitFault(document, root, SplitEnvelope(document, root).error)
  {
    if SplitEnvelope(document, root) == Ok(s) {
      SplitHolds(document, root);
    }
    hide SplitEnvelope;
    if Splits(document, root, s) {
      SplitOnly(document, root, s);
    }
  }

  /** merge_envelope: the sidecar's members are added in any order; a name that is already there is an error. */
  method MergeEnvelope(document: Value, envelope: Option<map<string, Value>>) returns (r: Result<Value, EnvelopeError>)
    ensures envelope.None? ==> r == Ok(document)
    ensures envelope.Some? && !document.Obj? ==> r == Err(RootNotObject)
    ensures envelope.Some? && document.Obj? && document.members.Keys !! envelope.value.Keys ==>
      r == Ok(Obj(document.members + envelope.value))
    ensures envelope.Some? && document.Obj? && !(document.members.Keys !! envelope.value.Keys) ==>
      r.Err? && r.error.EnvelopeKeyCollision? && r.error.key in document.members && r.error.key in envelope.value
  {
    if envelope.None? {
      return Ok(document);
    }
    if !document.Obj? {
      return Err(RootNotObject);
    }
    var members, rest := document.members, envelope.value.Keys;
    while rest != {}
      invariant rest <= envelope.value.Keys
      invariant members == document.members + map k | k in envelope.value && k !in rest :: envelope.value[k]
      invariant document.members.Keys !! envelope.value.Keys - rest
      decreases |rest|
    {
      var key :| key in rest;
      if key in members {
        return Err(EnvelopeKeyCollision(key));
      }
      members := members[key := envelope.value[key]];
      rest := rest - {key};
    }
    assert members == document.members + envelope.value;
    r := Ok(Obj(members));
  }

  /** Splitting and merging around a restored dataset restores the whole document: whatever stands for the dataset
      up to normalization, the merged document stands for the source up to normalization. */
  lemma {:induction false} EnvelopeRoundTrip(document: Value, root: string, split: SplitDocument, restored: Value)
    requires SplitEnvelope(document, Some(root)) == Ok(split) && split.envelope.Some?
    requires restored.Obj? && Normalize(restored, "") == Normalize(split.document, "")
    ensures restored.members.Keys == {root} && restored.members.Keys !! split.envelope.value.Keys
    ensures Normalize(Obj(restored.members + split.envelope.value), "") == Normalize(document, "")
  {
    var m := document.members;
    var alone := map[root := m[root]];
    assert root in alone;
    assert Normalize(restored, "").members.Keys == {root} by {
      assert Normalize(Obj(alone), "").members.Keys == alone.Keys;
    }
    assert restored.members != map[] by {
      assert Normalize(Obj(map[]), "") == Null;
    }
    assert Normalize(restored, "").members.Keys == restored.members.Keys;
    var merged := restored.members + split.envelope.value;
    assert merged.Keys == m.Keys;
    forall k | k in m
      ensures Normalize(merged[k], k) == Normalize(m[k], k)
    {
      if k == root {
        assert Normalize(restored, "").members[root] == Normalize(Obj(alone), "").members[root];
      }
    }
    assert Normalize(Obj(merged), "").members == Normalize(Obj(m), "").members;
  }
}
