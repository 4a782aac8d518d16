/** Merging repeated languages: the fragments of one language become one text. */
module Languages {
  import opened Json

  /** The language of a fragment, when it is an object with a string "@xml:lang". */
  function Lang(item: Value): Option<string> {
    if item.Obj? && "@xml:lang" in item.members && item.members["@xml:lang"].Str?
    then Some(item.members["@xml:lang"].value) else None
  }

  /** The text of a fragment, empty when it has none. */
  function TextOf(item: Value): string {
    if item.Obj? && "#text" in item.members && item.members["#text"].Str?
    then item.members["#text"].value else ""
  }

  function JoinTexts(left: string, right: string): string {
    if left == "" then right else if right == "" then left else left + "\n\n" + right
  }

  predicate Occurs(items: seq<Value>, language: string) {
    exists i :: 0 <= i < |items| && Lang(items[i]) == Some(language)
  }

  /** Position of the first item in the given language. */
  function Find(items: seq<Value>, language: string): Option<nat> {
    if items == [] then None
    else
      match Find(items[..|items| - 1], language)
      case Some(i) => Some(i)
      case None => if Lang(items[|items| - 1]) == Some(language) then Some(|items| - 1) else None
  }

  lemma {:induction false} FindCorrect(items: seq<Value>, language: string)
    ensures match Find(items, language)
      case Some(i) => i < |items| && Lang(items[i]) == Some(language)
                      && forall j :: 0 <= j < i ==> Lang(items[j]) != Some(language)
      case None => forall j :: 0 <= j < |items| ==> Lang(items[j]) != Some(language)
  {
    if items != [] {
      FindCorrect(items[..|items| - 1], language);
    }
  }

  /** Taking one more fragment into a merged list. */
  function Absorb(merged: seq<Value>, item: Value): seq<Value> {
    match Lang(item)
    case None => merged + [item]
    case Some(language) =>
      match Find(merged, language)
      case None => merged + [item]
      case Some(i) =>
        if i < |merged| && merged[i].Obj? then
          merged[i := Obj(merged[i].members["#text" := Str(JoinTexts(TextOf(merged[i]), TextOf(item)))])]
        else merged
  }

  function Merged(items: seq<Value>): seq<Value> {
    if items == [] then [] else Absorb(Merged(items[..|items| - 1]), items[|items| - 1])
  }

  /** No language occurs twice. */
  predicate DistinctLanguages(items: seq<Value>) {
    forall i, j :: 0 <= i < j < |items| && Lang(items[i]).Some? ==> Lang(items[i]) != Lang(items[j])
  }

  /** The texts of one language, in order. */
  function TextsIn(items: seq<Value>, language: string): seq<string> {
    if items == [] then []
    else
      var last := items[|items| - 1];
      TextsIn(items[..|items| - 1], language) + (if Lang(last) == Some(language) then [TextOf(last)] else [])
  }

  /** Texts separated by blank lines, empty ones left out. */
  function Joined(texts: seq<string>): string {
    if texts == [] then "" else JoinTexts(Joined(texts[..|texts| - 1]), texts[|texts| - 1])
  }

  function Unlabelled(items: seq<Value>): seq<Value> {
    if items == [] then []
    else Unlabelled(items[..|items| - 1]) + (if Lang(items[|items| - 1]).None? then [items[|items| - 1]] else [])
  }

  lemma {:induction false} AppendUnlabelled(items: seq<Value>, item: Value)
    ensures Unlabelled(items + [item]) == Unlabelled(items) + (if Lang(item).None? then [item] else [])
    ensures forall language ::
      TextsIn(items + [item], language)
      == TextsIn(items, language) + (if Lang(item) == Some(language) then [TextOf(item)] else [])
  {
    assert (items + [item])[..|items|] == items;
  }

  lemma {:induction false} UpdateUnlabelled(items: seq<Value>, i: nat, item: Value)
    requires i < |items| && Lang(items[i]).Some? && Lang(item) == Lang(items[i])
    ensures Unlabelled(items[i := item]) == Unlabelled(items)
  {
    var init := items[..|items| - 1];
    if i < |init| {
      UpdateUnlabelled(init, i, item);
      assert items[i := item][..|items| - 1] == init[i := item];
    } else {
      assert items[i := item][..|items| - 1] == init;
    }
  }

  /** What merging does: languages become distinct, each keeps exactly its non-empty texts in order,
      and fragments without a language stay as they are, in order. */
  lemma {:induction false} MergedCorrect(items: seq<Value>)
    ensures DistinctLanguages(Merged(items))
    ensures Unlabelled(Merged(items)) == Unlabelled(items)
    ensures forall i :: 0 <= i < |Merged(items)| && Lang(Merged(items)[i]).Some? ==>
      TextOf(Merged(items)[i]) == Joined(TextsIn(items, Lang(Merged(items)[i]).value))
    ensures forall language :: Occurs(items, language) <==> Find(Merged(items), language).Some?
  {
    if items != [] {
      var init, item := items[..|items| - 1], items[|items| - 1];
      MergedCorrect(init);
      assert items == init + [item];
      AppendUnlabelled(init, item);
      AbsorbDistinct(Merged(init), item);
      AbsorbUnlabelled(Merged(init), item);
      AbsorbTexts(init, Merged(init), item);
      AbsorbFinds(init, Merged(init), item);
    }
  }

  lemma {:induction false} AbsorbDistinct(merged: seq<Value>, item: Value)
    requires DistinctLanguages(merged)
    ensures DistinctLanguages(Absorb(merged, item))
  {
    if Lang(item).Some? {
      FindCorrect(merged, Lang(item).value);
      var out := Absorb(merged, item);
      forall i | 0 <= i < |merged|
        ensures Lang(out[i]) == Lang(merged[i])
      {
      }
    }
  }

  lemma {:induction false} AbsorbUnlabelled(merged: seq<Value>, item: Value)
    ensures Unlabelled(Absorb(merged, item)) == Unlabelled(merged) + (if Lang(item).None? then [item] else [])
  {
    AppendUnlabelled(merged, item);
    if Lang(item).Some? {
      FindCorrect(merged, Lang(item).value);
      match Find(merged, Lang(item).value)
      case None =>
      case Some(i) => UpdateUnlabelled(merged, i, Absorb(merged, item)[i]);
    }
  }

  lemma {:induction false} NoTexts(items: seq<Value>, language: string)
    requires forall i :: 0 <= i < |items| ==> Lang(items[i]) != Some(language)
    ensures TextsIn(items, language) == []
  {
    if items != [] {
      NoTexts(items[..|items| - 1], language);
    }
  }

  lemma {:induction false} AbsorbTexts(init: seq<Value>, merged: seq<Value>, item: Value)
    requires DistinctLanguages(merged)
    requires forall i :: 0 <= i < |merged| && Lang(merged[i]).Some? ==>
      TextOf(merged[i]) == Joined(TextsIn(init, Lang(merged[i]).value))
    requires forall language :: Occurs(init, language) <==> Find(merged, language).Some?
    ensures forall i :: 0 <= i < |Absorb(merged, item)| && Lang(Absorb(merged, item)[i]).Some? ==>
      TextOf(Absorb(merged, item)[i]) == Joined(TextsIn(init + [item], Lang(Absorb(merged, item)[i]).value))
  {
    AppendUnlabelled(init, item);
    var out := Absorb(merged, item);
    forall i | 0 <= i < |out| && Lang(out[i]).Some?
      ensures TextOf(out[i]) == Joined(TextsIn(init + [item], Lang(out[i]).value))
    {
      var language := Lang(out[i]).value;
      FindCorrect(merged, language);
      var before := TextsIn(init, language);
      if Lang(item) != Some(language) {
        assert TextsIn(init + [item], language) == before;
        assert i < |merged|;
        if Lang(item).Some? {
          FindCorrect(merged, Lang(item).value);
        }
        assert out[i] == merged[i];
      } else {
        assert TextsIn(init + [item], language) == before + [TextOf(item)];
        assert (before + [TextOf(item)])[..|before|] == before;
        if Find(merged, language).None? {
          NoTexts(init, language);
          assert i == |merged|;
        }
      }
    }
  }

  /** Taking in a fragment keeps the languages of the list, and appends the fragment if its language is new. */
  lemma {:induction false} AbsorbLanguages(merged: seq<Value>, item: Value)
    ensures var out := Absorb(merged, item);
            if Lang(item).Some? && Find(merged, Lang(item).value).Some?
            then |out| == |merged| && forall i :: 0 <= i < |merged| ==> Lang(out[i]) == Lang(merged[i])
            else out == merged + [item]
  {
    if Lang(item).Some? {
      FindCorrect(merged, Lang(item).value);
    }
  }

  lemma {:induction false} FindsOccurring(items: seq<Value>, language: string)
    ensures Find(items, language).Some? <==> Occurs(items, language)
  {
    FindCorrect(items, language);
    hide Find, Lang;
  }

  lemma {:induction false} AbsorbFinds(init: seq<Value>, merged: seq<Value>, item: Value)
    requires forall language :: Occurs(init, language) <==> Find(merged, language).Some?
    ensures forall language :: Occurs(init + [item], language) <==> Find(Absorb(merged, item), language).Some?
  {
    hide Find, Absorb, Lang;
    var out := Absorb(merged, item);
    AbsorbLanguages(merged, item);
    forall language
      ensures Occurs(init + [item], language) <==> Find(out, language).Some?
    {
      FindsOccurring(merged, language);
      FindsOccurring(out, language);
      OccursOnceMore(init, item, language);
      OccursOnceMore(merged, item, language);
    }
  }

  // ---------- the merged list, item by item ----------

  /** Texts with blank lines between them. */
  function Paragraphs(texts: seq<string>): string {
    if texts == [] then "" else if |texts| == 1 then texts[0] else texts[0] + "\n\n" + Paragraphs(texts[1..])
  }

  lemma {:induction false} ParagraphsLast(texts: seq<string>, text: string)
    ensures Paragraphs(texts + [text]) == if texts == [] then text else Paragraphs(texts) + "\n\n" + text
  {
    if texts == [] {
      assert [] + [text] == [text];
    } else {
      assert (texts + [text])[1..] == texts[1..] + [text];
      ParagraphsLast(texts[1..], text);
      if |texts| > 1 {
        assert texts[0] + "\n\n" + (Paragraphs(texts[1..]) + "\n\n" + text) == texts[0] + "\n\n" + Paragraphs(texts[1..]) + "\n\n" + text;
      }
    }
  }

  function Written(texts: seq<string>): seq<string> {
    if texts == [] then []
    else Written(texts[..|texts| - 1]) + if texts[|texts| - 1] == "" then [] else [texts[|texts| - 1]]
  }

  lemma {:induction false} NoParagraphs(texts: seq<string>)
    requires forall i :: 0 <= i < |texts| ==> texts[i] != ""
    ensures Paragraphs(texts) == "" <==> texts == []
  {
  }

  lemma {:induction false} WrittenNotEmpty(texts: seq<string>)
    ensures forall i :: 0 <= i < |Written(texts)| ==> Written(texts)[i] != ""
  {
    if texts != [] {
      WrittenNotEmpty(texts[..|texts| - 1]);
    }
  }

  /** Joining texts one by one puts blank lines between those that are not empty. */
  lemma {:induction false} JoinedIs(texts: seq<string>)
    ensures Joined(texts) == Paragraphs(Written(texts))
  {
    if texts != [] {
      var init, last := texts[..|texts| - 1], texts[|texts| - 1];
      JoinedIs(init);
      WrittenNotEmpty(init);
      NoParagraphs(Written(init));
      ParagraphsLast(Written(init), last);
      hide Paragraphs;
      assert Written(init) + [] == Written(init);
    }
  }

  /** No other fragment has the language. */
  predicate IsOnly(items: seq<Value>, i: nat)
    requires i < |items|
  {
    Lang(items[i]).None? || forall j :: 0 <= j < |items| && j != i ==> Lang(items[j]) != Lang(items[i])
  }

  predicate IsFirst(items: seq<Value>, i: nat)
    requires i < |items|
  {
    Lang(items[i]).None? || forall j :: 0 <= j < i ==> Lang(items[j]) != Lang(items[i])
  }

  /** A fragment that is the only one of its language stays; the first of several has the texts of all, in order. */
  function FragmentFor(items: seq<Value>, i: nat): Value
    requires i < |items|
  {
    if IsOnly(items, i) then items[i]
    else Obj(items[i].members["#text" := Str(Paragraphs(Written(TextsIn(items, Lang(items[i]).value))))])
  }

  /** `places` are, in order, the items without a language and the first ones of each language. */
  ghost predicate FirstPlaces(items: seq<Value>, places: seq<nat>) {
    && (forall n :: 0 <= n < |places| ==> places[n] < |items| && IsFirst(items, places[n]))
    && (forall n, k :: 0 <= n < k < |places| ==> places[n] < places[k])
    && (forall i :: 0 <= i < |items| && IsFirst(items, i) ==> i in places)
  }

  ghost predicate FragmentsAt(items: seq<Value>, places: seq<nat>, out: seq<Value>) {
    |out| == |places| && forall n :: 0 <= n < |places| ==> places[n] < |items| && out[n] == FragmentFor(items, places[n])
  }

  lemma FragmentLang(items: seq<Value>, i: nat)
    requires i < |items|
    ensures Lang(FragmentFor(items, i)) == Lang(items[i])
  {
    assert |"#text"| != |"@xml:lang"|;
  }

  lemma {:induction false} FragmentNext(items: seq<Value>, item: Value, i: nat)
    requires i < |items|
    ensures FragmentFor(items + [item], i) ==
            if Lang(item).None? || Lang(item) != Lang(items[i]) then FragmentFor(items, i)
            else Obj(items[i].members["#text" := Str(Paragraphs(Written(TextsIn(items, Lang(item).value) + [TextOf(item)])))])
    ensures IsFirst(items + [item], i) <==> IsFirst(items, i)
  {
    var all := items + [item];
    AppendUnlabelled(items, item);
    hide Lang, TextOf, Paragraphs;
    assert all[|items|] == item && forall j :: 0 <= j < |items| ==> all[j] == items[j];
    if Lang(item).Some? && Lang(item) == Lang(items[i]) {
      assert !IsOnly(all, i);
    } else {
      assert IsOnly(all, i) <==> IsOnly(items, i);
      assert Lang(items[i]).Some? ==> TextsIn(items, Lang(items[i]).value) + [] == TextsIn(items, Lang(items[i]).value);
    }
  }

  /** Merging gives exactly one fragment for each language, at the place of its first one, and leaves the others. */
  lemma {:induction false} MergedPlaces(items: seq<Value>) returns (places: seq<nat>)
    ensures FirstPlaces(items, places) && FragmentsAt(items, places, Merged(items))
  {
    places := [];
    if items != [] {
      var init, item := items[..|items| - 1], items[|items| - 1];
      var before := MergedPlaces(init);
      assert items == init + [item];
      places := if IsFirst(items, |init|) then before + [|init|] else before;
      hide Merged, FragmentFor, IsFirst, FirstPlaces;
      PlacesNext(init, item, before);
      AbsorbedAt(init, item, before, Merged(init));
    }
  }

  lemma {:induction false} MergedExactly(items: seq<Value>)
    ensures exists places :: FirstPlaces(items, places) && FragmentsAt(items, places, Merged(items))
  {
    var places := MergedPlaces(items);
    hide FirstPlaces, FragmentsAt;
  }

  lemma {:induction false} PlacesNext(init: seq<Value>, item: Value, before: seq<nat>)
    requires FirstPlaces(init, before)
    ensures var all := init + [item];
            FirstPlaces(all, if IsFirst(all, |init|) then before + [|init|] else before)
  {
    var all := init + [item];
    forall i | 0 <= i < |init|
      ensures IsFirst(all, i) <==> IsFirst(init, i)
    {
      FragmentNext(init, item, i);
    }
    hide IsFirst;
    var places := if IsFirst(all, |init|) then before + [|init|] else before;
    forall n | 0 <= n < |places|
      ensures places[n] < |all| && IsFirst(all, places[n])
    {
      assert n < |before| ==> places[n] == before[n];
    }
    forall i | 0 <= i < |all| && IsFirst(all, i)
      ensures i in places
    {
      assert i < |init| ==> i in before;
      assert i == |init| ==> places[|before|] == i;
    }
    forall n, k | 0 <= n < k < |places|
      ensures places[n] < places[k]
    {
      assert k == |before| ==> places[k] == |init| && before[n] < |init|;
    }
  }

  lemma {:induction false} AbsorbedAt(init: seq<Value>, item: Value, before: seq<nat>, merged: seq<Value>)
    requires FirstPlaces(init, before) && FragmentsAt(init, before, merged) && merged == Merged(init)
    ensures var all := init + [item];
            FragmentsAt(all, if IsFirst(all, |init|) then before + [|init|] else before, Absorb(merged, item))
  {
    var all := init + [item];
    var out := Absorb(merged, item);
    MergedCorrect(init);
    forall n | 0 <= n < |before|
      ensures Lang(merged[n]) == Lang(init[before[n]])
    {
      FragmentLang(init, before[n]);
    }
    LastFragment(init, item);
    hide Merged, FragmentFor, IsFirst;
    if Lang(item).Some? {
      FindCorrect(merged, Lang(item).value);
    }
    if Lang(item).Some? && Find(merged, Lang(item).value).Some? {
      forall n | 0 <= n < |before|
        ensures out[n] == FragmentFor(all, before[n])
      {
        FragmentNext(init, item, before[n]);
        AbsorbedOne(init, item, before[n], merged, n);
      }
    } else {
      forall n | 0 <= n < |before|
        ensures out[n] == FragmentFor(all, before[n])
      {
        FragmentNext(init, item, before[n]);
      }
    }
  }

  lemma {:induction false} LastFragment(init: seq<Value>, item: Value)
    ensures var all := init + [item];
            && (IsFirst(all, |init|) <==> Lang(item).None? || Find(Merged(init), Lang(item).value).None?)
            && (IsFirst(all, |init|) ==> FragmentFor(all, |init|) == item)
  {
    var all := init + [item];
    hide Lang;
    MergedCorrect(init);
    if Lang(item).Some? {
      assert Occurs(init, Lang(item).value) <==> Find(Merged(init), Lang(item).value).Some?;
      hide Merged, Find;
      assert forall j :: 0 <= j < |init| ==> all[j] == init[j];
    }
  }

  /** The text of the first fragment of a language, after one more has been taken in. */
  lemma {:induction false} TextTakenIn(texts: seq<string>, text: string)
    ensures JoinTexts(Joined(texts), text) == Paragraphs(Written(texts + [text]))
  {
    JoinedIs(texts + [text]);
    assert (texts + [text])[..|texts|] == texts;
    hide Paragraphs, Written;
  }

  lemma FoundAt(items: seq<Value>, n: nat)
    requires n < |items| && DistinctLanguages(items) && Lang(items[n]).Some?
    ensures Find(items, Lang(items[n]).value) == Some(n)
  {
    FindCorrect(items, Lang(items[n]).value);
    hide Find, Lang;
  }

  lemma {:induction false} AbsorbedOne(init: seq<Value>, item: Value, i: nat, merged: seq<Value>, n: nat)
    requires i < |init| && n < |merged| && merged[n] == FragmentFor(init, i) && merged == Merged(init)
    requires Lang(item).Some? && Find(merged, Lang(item).value).Some?
    ensures Absorb(merged, item)[n] == FragmentFor(init + [item], i)
  {
    MergedCorrect(init);
    FragmentNext(init, item, i);
    FragmentLang(init, i);
    FindCorrect(merged, Lang(item).value);
    var language := Lang(item).value;
    if Lang(init[i]) == Lang(item) {
      FoundAt(merged, n);
      TextTakenIn(TextsIn(init, language), TextOf(item));
      FragmentMembers(init, i, Str(JoinTexts(Joined(TextsIn(init, language)), TextOf(item))));
      hide Merged, Find, Paragraphs, Written, Joined, TextsIn, FragmentFor, TextOf, JoinTexts, DistinctLanguages, Unlabelled, Occurs;
      assert TextOf(merged[n]) == Joined(TextsIn(init, language));
    } else {
      hide Merged, Find, FragmentFor;
    }
  }

  lemma FragmentMembers(items: seq<Value>, i: nat, text: Value)
    requires i < |items| && Lang(items[i]).Some?
    ensures FragmentFor(items, i).Obj? && FragmentFor(items, i).members["#text" := text] == items[i].members["#text" := text]
  {
  }

  /** Some language occurs more than once. */
  predicate HasRepeat(items: seq<Value>) {
    !DistinctLanguages(items)
  }

  /** Merges in place: each later fragment of a language goes to the position of the first one. */
  method MergeItems(items: seq<Value>) returns (merged: seq<Value>)
    ensures merged == Merged(items)
  {
    merged := [];
    var positions: map<string, nat> := map[];
    for n := 0 to |items|
      invariant merged == Merged(items[..n])
      invariant forall language :: language in positions <==> Find(merged, language).Some?
      invariant forall language :: language in positions ==> Find(merged, language) == Some(positions[language])
    {
      var item := items[n];
      assert items[..n + 1][..n] == items[..n];
      ghost var before := merged;
      if Lang(item).None? {
        merged := merged + [item];
        FindAppend(before, item);
      } else {
        var language := Lang(item).value;
        FindCorrect(merged, language);
        if language in positions {
          var position := positions[language];
          var existing := merged[position].members;
          merged := merged[position := Obj(existing["#text" := Str(JoinTexts(TextOf(merged[position]), TextOf(item)))])];
          FindUpdate(before, position, merged[position]);
        } else {
          positions := positions[language := |merged|];
          merged := merged + [item];
          FindAppend(before, item);
        }
      }
      assert merged == Absorb(before, item);
    }
    assert items[..|items|] == items;
  }

  lemma {:induction false} FindAppend(items: seq<Value>, item: Value)
    ensures forall language ::
      Find(items + [item], language)
      == (if Find(items, language).Some? then Find(items, language)
          else if Lang(item) == Some(language) then Some(|items|) else None)
  {
    assert (items + [item])[..|items|] == items;
  }

  lemma {:induction false} FindUpdate(items: seq<Value>, i: nat, item: Value)
    requires i < |items| && Lang(item) == Lang(items[i])
    ensures forall language :: Find(items[i := item], language) == Find(items, language)
  {
    var init := items[..|items| - 1];
    if i < |init| {
      FindUpdate(init, i, item);
      assert items[i := item][..|items| - 1] == init[i := item];
    } else {
      assert items[i := item][..|items| - 1] == init;
    }
  }

  predicate Twice(items: seq<Value>, language: string) {
    exists i, j :: 0 <= i < j < |items| && Lang(items[i]) == Lang(items[j]) == Some(language)
  }

  /** The counting loop that decides whether to merge. */
  method CountsRepeat(items: seq<Value>) returns (repeated: bool)
    ensures repeated <==> HasRepeat(items)
  {
    hide Occurs, Twice, HasRepeat;
    NothingOccurs();
    var counts: map<string, nat> := map[];
    for n := 0 to |items|
      invariant forall language :: language in counts <==> Occurs(items[..n], language)
      invariant forall language :: language in counts ==>
        counts[language] >= 1 && (counts[language] > 1 <==> Twice(items[..n], language))
    {
      ghost var before, after := items[..n], items[..n + 1];
      if Lang(items[n]).Some? {
        var language := Lang(items[n]).value;
        counts := counts[language := (if language in counts then counts[language] else 0) + 1];
      }
      assert after == before + [items[n]];
      EachOneMore(before, items[n]);
    }
    assert items[..|items|] == items;
    repeated := exists language :: language in counts && counts[language] > 1;
    RepeatIsTwice(items);
  }

  lemma {:induction false} NothingOccurs()
    ensures forall language :: !Occurs([], language) && !Twice([], language)
  {
  }

  lemma {:induction false} RepeatIsTwice(items: seq<Value>)
    ensures HasRepeat(items) <==> exists language :: Occurs(items, language) && Twice(items, language)
  {
    if HasRepeat(items) {
      var i, j :| 0 <= i < j < |items| && Lang(items[i]).Some? && Lang(items[i]) == Lang(items[j]);
      assert Twice(items, Lang(items[i]).value);
      assert Occurs(items, Lang(items[i]).value);
    }
  }

  lemma {:induction false} EachOneMore(items: seq<Value>, item: Value)
    ensures forall language :: Twice(items, language) ==> Occurs(items, language)
    ensures forall language ::
      (Occurs(items + [item], language) <==> Occurs(items, language) || Lang(item) == Some(language))
      && (Twice(items + [item], language)
          <==> Twice(items, language) || (Occurs(items, language) && Lang(item) == Some(language)))
  {
    forall language
      ensures Occurs(items + [item], language) <==> Occurs(items, language) || Lang(item) == Some(language)
      ensures Twice(items + [item], language)
         <==> Twice(items, language) || (Occurs(items, language) && Lang(item) == Some(language))
    {
      OneMore(items, item, language);
    }
  }

  lemma {:induction false} OneMore(items: seq<Value>, item: Value, language: string)
    ensures Occurs(items + [item], language) <==> Occurs(items, language) || Lang(item) == Some(language)
    ensures Twice(items + [item], language)
       <==> Twice(items, language) || (Occurs(items, language) && Lang(item) == Some(language))
  {
    OccursOnceMore(items, item, language);
    TwiceOnceMore(items, item, language);
  }

  lemma {:induction false} OccursOnceMore(items: seq<Value>, item: Value, language: string)
    ensures Occurs(items + [item], language) <==> Occurs(items, language) || Lang(item) == Some(language)
  {
    hide Lang;
    var all := items + [item];
    assert all[|items|] == item && forall i :: 0 <= i < |items| ==> all[i] == items[i];
    if Occurs(items, language) {
      var i :| 0 <= i < |items| && Lang(items[i]) == Some(language);
      assert Lang(all[i]) == Some(language);
    }
  }

  lemma {:induction false} TwiceOnceMore(items: seq<Value>, item: Value, language: string)
    ensures Twice(items + [item], language)
       <==> Twice(items, language) || (Occurs(items, language) && Lang(item) == Some(language))
  {
    hide Lang;
    var all := items + [item];
    assert all[|items|] == item && forall i :: 0 <= i < |items| ==> all[i] == items[i];
    if Twice(items, language) {
      var i, j :| 0 <= i < j < |items| && Lang(items[i]) == Lang(items[j]) == Some(language);
      assert Lang(all[i]) == Lang(all[j]) == Some(language);
    } else if Occurs(items, language) && Lang(item) == Some(language) {
      var i :| 0 <= i < |items| && Lang(items[i]) == Some(language);
      assert Lang(all[i]) == Lang(all[|items|]) == Some(language);
    }
    if Twice(all, language) {
      var i, j :| 0 <= i < j < |all| && Lang(all[i]) == Lang(all[j]) == Some(language);
      assert Lang(items[i]) == Some(language);
    }
  }
}
