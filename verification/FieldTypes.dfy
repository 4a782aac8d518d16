/** Which values of a process get their type back, and what everything else is: unchanged. */
module FieldTypes {
  import opened Json
  import opened Pointer
  import opened Sidecars
  import EndToEnd

  /** The text is a decimal integer in the range of 64 bits, with or without a sign. */
  ghost predicate IsInteger(text: string, n: int) {
    exists sign, digits ::
      text == sign + digits && sign in ["", "+", "-"] && digits != "" && AllDigits(digits)
      && n == Signed(sign, digits) && -I64_MAX - 1 <= n <= I64_MAX
  }

  const YEARS: set<string> := {"common:referenceYear", "common:dataSetValidUntil"}

  predicate IsYearPlace(path: seq<string>) {
    |path| == 4 && path[..3] == ["processDataSet", "processInformation", "time"] && path[3] in YEARS
  }

  predicate IsMethodPlace(path: seq<string>) {
    path == ["processDataSet", "modellingAndValidation", "LCIMethodAndAllocation"]
  }

  /** A year that is an integer becomes that number, written without a plus sign or leading zeros. */
  ghost predicate YearTyped(v: Value, out: Value) {
    if v.Str? && exists n :: IsInteger(v.value, n) then
      out.Num? && CanonicalDecimal(out.text) && forall n :: IsInteger(v.value, n) ==> IsInteger(out.text, n)
    else out == v
  }

  /** `out` is `v` with the two years typed and an empty method where there was null; objects keep their members. */
  ghost predicate Retyped(v: Value, out: Value, path: seq<string>)
    decreases v
  {
    if IsYearPlace(path) then YearTyped(v, out)
    else if IsMethodPlace(path) && v.Null? then out == Obj(map[])
    else if v.Obj? && |path| < 4 then
      out.Obj? && out.members.Keys == v.members.Keys
      && forall k :: k in v.members ==> Retyped(v.members[k], out.members[k], path + [k])
    else out == v
  }

  // ---------- integers ----------

  /** The number that digits with a sign stand for. */
  function Signed(sign: string, digits: string): int
    requires AllDigits(digits)
  {
    if sign == "-" then -(DigitsValue(digits) as int) else DigitsValue(digits)
  }

  lemma SignedIsParsed(sign: string, digits: string)
    requires sign in ["", "+", "-"] && digits != "" && AllDigits(digits) && -I64_MAX - 1 <= Signed(sign, digits) <= I64_MAX
    ensures ParseSigned(sign + digits) == Some(Signed(sign, digits))
  {
    hide DigitsValue;
    assert '0' <= digits[0] <= '9';
    var text := sign + digits;
    if sign == "" {
      assert text == digits;
    } else {
      assert text[0] == sign[0] && text[1..] == digits;
    }
  }

  lemma ParsedIsSigned(text: string)
    requires ParseSigned(text).Some?
    ensures IsInteger(text, ParseSigned(text).value)
  {
    hide DigitsValue;
    var sign := if text[0] == '+' then "+" else if text[0] == '-' then "-" else "";
    var digits := if sign == "" then text else text[1..];
    assert text == sign + digits && sign in ["", "+", "-"] && digits != "" && AllDigits(digits);
    assert ParseSigned(text).value == Signed(sign, digits);
  }

  lemma {:induction false} ParsedIs(text: string, n: int)
    ensures ParseSigned(text) == Some(n) <==> IsInteger(text, n)
  {
    if ParseSigned(text).Some? {
      ParsedIsSigned(text);
    }
    hide ParseSigned, Signed;
    if IsInteger(text, n) {
      var sign, digits :| text == sign + digits && sign in ["", "+", "-"] && digits != "" && AllDigits(digits)
                          && n == Signed(sign, digits) && -I64_MAX - 1 <= n <= I64_MAX;
      SignedIsParsed(sign, digits);
    }
  }

  lemma PrintedParts(n: int)
    ensures var size := if n < 0 then -n else n;
            var sign, digits := if n < 0 then "-" else "", Decimal(size);
            && PrintSigned(n) == sign + digits && n == Signed(sign, digits) && digits != "" && AllDigits(digits)
            && (digits[0] == '0' ==> digits == "0" && n == 0)
  {
    var size := if n < 0 then -n else n;
    DecimalValue(size);
    DecimalStart(size);
    hide Decimal, DigitsValue;
  }

  lemma WrittenWith(sign: string, digits: string, text: string)
    requires sign in ["", "-"] && text == sign + digits && digits != "" && AllDigits(digits)
    requires digits[0] == '0' ==> digits == "0" && sign == ""
    ensures CanonicalDecimal(text)
  {
    assert '0' <= digits[0] <= '9';
    if sign == "" {
      assert text == digits;
    } else {
      assert text[0] == '-' && text[1..] == digits;
    }
  }

  lemma {:induction false} PrintedIsInteger(n: int)
    requires -I64_MAX - 1 <= n <= I64_MAX
    ensures CanonicalDecimal(PrintSigned(n)) && IsInteger(PrintSigned(n), n)
  {
    var sign, digits := if n < 0 then "-" else "", Decimal(if n < 0 then -n else n);
    PrintedParts(n);
    hide *;
    WrittenWith(sign, digits, PrintSigned(n));
    IntegerWith(sign, digits, PrintSigned(n), n);
  }

  lemma IntegerWith(sign: string, digits: string, text: string, n: int)
    requires sign in ["", "-"] && text == sign + digits && digits != "" && AllDigits(digits)
    requires n == Signed(sign, digits) && -I64_MAX - 1 <= n <= I64_MAX
    ensures IsInteger(text, n)
  {
    hide Signed;
    assert sign in ["", "+", "-"];
  }

  lemma {:induction false} YearIsTyped(v: Value)
    ensures YearTyped(v, TypedYear(v))
  {
    if v.Str? {
      forall n
        ensures ParseSigned(v.value) == Some(n) <==> IsInteger(v.value, n)
      {
        ParsedIs(v.value, n);
      }
      if ParseSigned(v.value).Some? {
        var n := ParseSigned(v.value).value;
        assert IsInteger(v.value, n);
        PrintedIsInteger(n);
      }
      hide IsInteger, PrintSigned, CanonicalDecimal;
    }
  }

  // ---------- the document ----------

  /** Where no typed place lies at or below, nothing changes. */
  ghost predicate Untyped(path: seq<string>) {
    forall place :: IsYearPlace(place) || IsMethodPlace(place) ==> !(path <= place)
  }

  lemma {:induction false} SameIsRetyped(v: Value, path: seq<string>)
    requires Untyped(path)
    ensures Retyped(v, v, path)
    decreases v
  {
    assert path <= path;
    if v.Obj? && |path| < 4 {
      forall k | k in v.members
        ensures Retyped(v.members[k], v.members[k], path + [k])
      {
        assert path <= path + [k];
        SameIsRetyped(v.members[k], path + [k]);
      }
    }
  }

  lemma PlacesStart(place: seq<string>)
    ensures IsYearPlace(place) ==>
              place[0] == "processDataSet" && place[1] == "processInformation" && place[2] == "time" && place[3] in YEARS
    ensures IsMethodPlace(place) ==>
              place[0] == "processDataSet" && place[1] == "modellingAndValidation" && place[2] == "LCIMethodAndAllocation"
  {
    if IsYearPlace(place) {
      assert place[..3][0] == place[0] && place[..3][1] == place[1] && place[..3][2] == place[2];
    }
  }

  lemma DatasetParts()
    ensures "processInformation" != "modellingAndValidation"
  {
    assert "processInformation"[0] == 'p' && "modellingAndValidation"[0] == 'm';
  }

  // Below a member that leads to no typed place nothing changes.

  lemma PartsOfPrefix(a: seq<string>, b: seq<string>)
    ensures a <= b ==> |a| <= |b| && forall n :: 0 <= n < |a| ==> a[n] == b[n]
  {
  }

  lemma OutsideDataset(k: string)
    requires k != "processDataSet"
    ensures Untyped([] + [k])
  {
    var here := [] + [k];
    forall place | IsYearPlace(place) || IsMethodPlace(place)
      ensures !(here <= place)
    {
      PlacesStart(place);
      PartsOfPrefix(here, place);
    }
  }

  lemma OutsideParts(k: string)
    requires k != "processInformation" && k != "modellingAndValidation"
    ensures Untyped(["processDataSet"] + [k])
  {
    var here := ["processDataSet"] + [k];
    forall place | IsYearPlace(place) || IsMethodPlace(place)
      ensures !(here <= place)
    {
      PlacesStart(place);
      PartsOfPrefix(here, place);
    }
  }

  lemma OutsideTime(k: string)
    requires k != "time"
    ensures Untyped(["processDataSet", "processInformation"] + [k])
  {
    DatasetParts();
    var here := ["processDataSet", "processInformation"] + [k];
    forall place | IsYearPlace(place) || IsMethodPlace(place)
      ensures !(here <= place)
    {
      PlacesStart(place);
      PartsOfPrefix(here, place);
    }
  }

  lemma OutsideYears(k: string)
    requires k !in YEARS
    ensures Untyped(["processDataSet", "processInformation", "time"] + [k])
  {
    DatasetParts();
    var here := ["processDataSet", "processInformation", "time"] + [k];
    forall place | IsYearPlace(place) || IsMethodPlace(place)
      ensures !(here <= place)
    {
      PlacesStart(place);
      PartsOfPrefix(here, place);
    }
  }

  lemma OutsideMethod(k: string)
    requires k != "LCIMethodAndAllocation"
    ensures Untyped(["processDataSet", "modellingAndValidation"] + [k])
  {
    DatasetParts();
    var here := ["processDataSet", "modellingAndValidation"] + [k];
    forall place | IsYearPlace(place) || IsMethodPlace(place)
      ensures !(here <= place)
    {
      PlacesStart(place);
      PartsOfPrefix(here, place);
    }
  }

  lemma {:induction false} TimeRetyped(v: Value)
    ensures Retyped(v, TypedTime(v), ["processDataSet", "processInformation", "time"])
  {
    var path := ["processDataSet", "processInformation", "time"];
    var out := TypedTime(v);
    var a, b := "common:referenceYear", "common:dataSetValidUntil";
    assert |a| != |b|;
    if v.Obj? {
      hide TypedYear, YearTyped;
      forall k | k in v.members
        ensures Retyped(v.members[k], out.members[k], path + [k])
      {
        assert path + [k] == ["processDataSet", "processInformation", "time", k];
        if k in YEARS {
          YearIsTyped(v.members[k]);
          assert IsYearPlace(path + [k]);
        } else {
          OutsideYears(k);
          SameIsRetyped(v.members[k], path + [k]);
        }
      }
    }
  }

  lemma {:induction false} InformationRetyped(v: Value)
    ensures Retyped(v, TypedInformation(v), ["processDataSet", "processInformation"])
  {
    var path := ["processDataSet", "processInformation"];
    var out := TypedInformation(v);
    if v.Obj? {
      hide TypedTime;
      forall k | k in v.members
        ensures Retyped(v.members[k], out.members[k], path + [k])
      {
        if k == "time" {
          assert path + [k] == ["processDataSet", "processInformation", "time"];
          TimeRetyped(v.members[k]);
        } else {
          OutsideTime(k);
          SameIsRetyped(v.members[k], path + [k]);
        }
      }
    }
  }

  lemma {:induction false} ValidationRetyped(v: Value)
    ensures Retyped(v, TypedValidation(v), ["processDataSet", "modellingAndValidation"])
  {
    var path := ["processDataSet", "modellingAndValidation"];
    var out := TypedValidation(v);
    if v.Obj? {
      forall k | k in v.members
        ensures Retyped(v.members[k], out.members[k], path + [k])
      {
        if k == "LCIMethodAndAllocation" {
          assert path + [k] == ["processDataSet", "modellingAndValidation", "LCIMethodAndAllocation"];
          MethodRetyped(v.members[k]);
        } else {
          OutsideMethod(k);
          SameIsRetyped(v.members[k], path + [k]);
        }
      }
    }
  }

  lemma {:induction false} MethodRetyped(v: Value)
    ensures Retyped(v, EmptyMethod(v), ["processDataSet", "modellingAndValidation", "LCIMethodAndAllocation"])
  {
    var path := ["processDataSet", "modellingAndValidation", "LCIMethodAndAllocation"];
    if v.Obj? {
      forall k | k in v.members
        ensures Retyped(v.members[k], v.members[k], path + [k])
      {
        BelowMethod(k);
        SameIsRetyped(v.members[k], path + [k]);
      }
    }
  }

  lemma BelowMethod(k: string)
    ensures Untyped(["processDataSet", "modellingAndValidation", "LCIMethodAndAllocation"] + [k])
  {
    var here := ["processDataSet", "modellingAndValidation", "LCIMethodAndAllocation"] + [k];
    assert "processInformation"[0] == 'p' && "modellingAndValidation"[0] == 'm';
    forall place | IsYearPlace(place)
      ensures place[1] == "processInformation"
    {
      assert place[..3][1] == place[1];
    }
    assert here[1] == "modellingAndValidation" && |here| == 4;
  }

  lemma {:induction false} DatasetRetyped(v: Value)
    ensures Retyped(v, TypedDataset(v), ["processDataSet"])
  {
    var path := ["processDataSet"];
    var out := TypedDataset(v);
    assert "processInformation"[0] == 'p' && "modellingAndValidation"[0] == 'm';
    if v.Obj? {
      hide TypedInformation, TypedValidation;
      forall k | k in v.members
        ensures Retyped(v.members[k], out.members[k], path + [k])
      {
        assert path + [k] == ["processDataSet", k];
        if k == "processInformation" {
          InformationRetyped(v.members[k]);
        } else if k == "modellingAndValidation" {
          ValidationRetyped(v.members[k]);
        } else {
          OutsideParts(k);
          SameIsRetyped(v.members[k], path + [k]);
        }
      }
    }
  }

  /** Restoring field types changes exactly the two years of a process that are integers, and an empty method. */
  lemma TypesAreRestored(document: Value, category: string)
    ensures var out := EndToEnd.Typed(document, category);
            if category == "processes" then Retyped(document, out, []) else out == document
  {
    ProcessRetyped(document);
    hide Retyped, ProcessTypes;
  }

  lemma {:induction false} ProcessRetyped(document: Value)
    ensures Retyped(document, ProcessTypes(document), [])
  {
    var out := ProcessTypes(document);
    if document.Obj? {
      hide TypedDataset;
      forall k | k in document.members
        ensures Retyped(document.members[k], out.members[k], [] + [k])
      {
        assert [] + [k] == [k];
        if k == "processDataSet" {
          DatasetRetyped(document.members[k]);
        } else {
          OutsideDataset(k);
          SameIsRetyped(document.members[k], [k]);
        }
      }
    }
  }
}
