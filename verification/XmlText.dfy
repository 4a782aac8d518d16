/** Text as XML keeps it: Unicode trimming and line ends. */
module XmlText {
  import opened Json
  import opened Pointer

  /** The code points Unicode marks as white space. */
  predicate IsSpace(c: char) {
    '\U{0009}' <= c <= '\U{000D}' || c == '\U{0020}' || c == '\U{0085}' || c == '\U{00A0}' || c == '\U{1680}'
    || '\U{2000}' <= c <= '\U{200A}' || c == '\U{2028}' || c == '\U{2029}' || c == '\U{202F}'
    || c == '\U{205F}' || c == '\U{3000}'
  }

  predicate Blank(s: string) {
    forall i :: 0 <= i < |s| ==> IsSpace(s[i])
  }

  function TrimStart(s: string): string {
    if s != "" && IsSpace(s[0]) then TrimStart(s[1..]) else s
  }

  function TrimEnd(s: string): string {
    if s != "" && IsSpace(s[|s| - 1]) then TrimEnd(s[..|s| - 1]) else s
  }

  function Trim(s: string): string {
    TrimEnd(TrimStart(s))
  }

  /** Carriage returns become line feeds, with or without a line feed after them (section 2.11 of XML 1.0). */
  function LineEnds(s: string): string {
    ReplaceChar(ReplacePair(s, '\r', '\n', '\n'), '\r', "\n")
  }

  /** project_xml_text. */
  function ProjectText(s: string): string {
    Trim(LineEnds(s))
  }

  predicate Trimmed(s: string) {
    s == "" || (!IsSpace(s[0]) && !IsSpace(s[|s| - 1]))
  }

  /** Text that XML gives back unchanged. */
  predicate Settled(s: string) {
    Trimmed(s) && '\r' !in s
  }

  lemma {:induction false} TrimStartFacts(s: string)
    ensures TrimStart(s) == "" || !IsSpace(TrimStart(s)[0])
    ensures exists n :: 0 <= n <= |s| && TrimStart(s) == s[n..] && Blank(s[..n])
  {
    if s != "" && IsSpace(s[0]) {
      TrimStartFacts(s[1..]);
      var n :| 0 <= n <= |s[1..]| && TrimStart(s[1..]) == s[1..][n..] && Blank(s[1..][..n]);
      assert s[1..][n..] == s[n + 1..];
      assert forall i :: 0 < i < n + 1 ==> s[i] == s[1..][..n][i - 1];
      assert Blank(s[..n + 1]);
    } else {
      assert s[0..] == s && Blank(s[..0]);
    }
  }

  lemma {:induction false} TrimEndFacts(s: string)
    ensures TrimEnd(s) <= s
    ensures TrimEnd(s) == "" || !IsSpace(TrimEnd(s)[|TrimEnd(s)| - 1])
    ensures Blank(s[|TrimEnd(s)|..])
  {
    if s != "" && IsSpace(s[|s| - 1]) {
      var init := s[..|s| - 1];
      TrimEndFacts(init);
      assert forall i :: |TrimEnd(s)| <= i < |init| ==> s[i] == init[|TrimEnd(s)|..][i - |TrimEnd(s)|];
    }
  }

  lemma {:induction false} TrimIsTrimmed(s: string)
    ensures Trimmed(Trim(s))
    ensures forall c :: c in Trim(s) ==> c in s
    ensures |Trim(s)| <= |s|
  {
    TrimStartFacts(s);
    TrimEndFacts(TrimStart(s));
  }

  lemma {:induction false} TrimSettled(s: string)
    requires Trimmed(s)
    ensures Trim(s) == s
  {
  }

  lemma {:induction false} TrimStartBlank(w: string, s: string)
    requires Blank(w)
    ensures TrimStart(w + s) == TrimStart(s)
  {
    if w == "" {
      assert w + s == s;
    } else {
      assert (w + s)[1..] == w[1..] + s;
      TrimStartBlank(w[1..], s);
    }
  }

  lemma {:induction false} TrimEndBlank(s: string, w: string)
    requires Blank(w)
    ensures TrimEnd(s + w) == TrimEnd(s)
  {
    if w == "" {
      assert s + w == s;
    } else {
      assert (s + w)[..|s + w| - 1] == s + w[..|w| - 1];
      TrimEndBlank(s, w[..|w| - 1]);
    }
  }

  lemma {:induction false} TrimStartOpen(s: string, w: string)
    requires s != "" && !IsSpace(s[0])
    ensures TrimStart(s + w) == s + w
  {
  }

  lemma {:induction false} TrimBlank(w: string)
    requires Blank(w)
    ensures Trim(w) == ""
  {
    TrimStartBlank(w, "");
    assert w + "" == w;
  }

  lemma Middle(s: string, i: nat, part: string)
    requires i <= |s| && part <= s[i..]
    ensures i + |part| <= |s| && part == s[i..i + |part|] && s[i..][|part|..] == s[i + |part|..]
  {
    var rest := s[i..];
    assert part == rest[..|part|];
  }

  lemma TrimIs(s: string)
    ensures Trim(s) == TrimEnd(TrimStart(s))
  {
    hide TrimEnd, TrimStart;
  }

  lemma {:induction false} TrimmedAt(s: string) returns (i: nat)
    ensures i + |Trim(s)| <= |s| && Trim(s) == s[i..i + |Trim(s)|]
    ensures Blank(s[..i]) && Blank(s[i + |Trim(s)|..])
  {
    TrimStartFacts(s);
    TrimEndFacts(TrimStart(s));
    i :| 0 <= i <= |s| && TrimStart(s) == s[i..] && Blank(s[..i]);
    hide *;
    TrimIs(s);
    Middle(s, i, Trim(s));
  }

  /** Trimming takes white space from both ends and nothing else. */
  lemma {:induction false} TrimmedAround(s: string)
    ensures Trimmed(Trim(s))
    ensures exists i :: 0 <= i <= i + |Trim(s)| <= |s| && Blank(s[..i]) && Trim(s) == s[i..i + |Trim(s)|] && Blank(s[i + |Trim(s)|..])
    ensures Trim(s) == "" <==> Blank(s)
  {
    TrimIsTrimmed(s);
    var i := TrimmedAt(s);
    if Blank(s) {
      TrimBlank(s);
    }
    if Trim(s) == "" {
      forall j | 0 <= j < |s|
        ensures IsSpace(s[j])
      {
        assert if j < i then s[..i][j] == s[j] else s[i..][j - i] == s[j];
      }
    }
    hide Trim, Trimmed, Blank;
  }

  lemma Regrouped<T>(a: seq<T>, b: seq<T>, c: seq<T>)
    ensures a + b + c == a + (b + c)
  {
  }

  lemma {:induction false} PartsBehind(head: string, rest: string, w: string)
    requires Blank(head) && Blank(w) && (rest == "" || !IsSpace(rest[0]))
    ensures Trim(head + rest + w) == TrimEnd(rest)
  {
    Regrouped(head, rest, w);
    TrimStartBlank(head, rest + w);
    if rest == "" {
      TrimBlank(w);
      hide *;
      assert rest + w == w;
    } else {
      TrimStartOpen(rest, w);
      TrimEndBlank(rest, w);
      hide TrimStart, TrimEnd, Blank, IsSpace;
    }
  }

  lemma {:induction false} TrimBehind(s: string, w: string)
    requires Blank(w)
    ensures Trim(s + w) == Trim(s)
  {
    TrimStartFacts(s);
    var n :| 0 <= n <= |s| && TrimStart(s) == s[n..] && Blank(s[..n]);
    PartsBehind(s[..n], s[n..], w);
    assert s[..n] + s[n..] == s;
    hide TrimStart, TrimEnd, Blank;
  }

  /** White space around a text does not matter to trimming. */
  lemma {:induction false} TrimAround(w: string, s: string, w': string)
    requires Blank(w) && Blank(w')
    ensures Trim(w + s + w') == Trim(s)
  {
    TrimBehind(w + s, w');
    TrimStartBlank(w, s);
    hide TrimStart, TrimEnd, Blank;
  }

  lemma {:induction false} NoReturnLeft(s: string)
    ensures '\r' !in ReplaceChar(s, '\r', "\n")
  {
    if s != "" {
      NoReturnLeft(s[1..]);
    }
  }

  lemma {:induction false} NoReturnSame(s: string)
    requires '\r' !in s
    ensures ReplacePair(s, '\r', '\n', '\n') == s && ReplaceChar(s, '\r', "\n") == s
  {
    if s != "" {
      assert s[0] in s && forall c :: c in s[1..] ==> c in s;
      NoReturnSame(s[1..]);
      assert s == [s[0]] + s[1..];
    }
  }

  lemma {:induction false} LineEndsSame(s: string)
    requires '\r' !in s
    ensures LineEnds(s) == s
  {
    NoReturnSame(s);
  }

  lemma {:induction false} LineEndsHasNoReturn(s: string)
    ensures '\r' !in LineEnds(s)
  {
    NoReturnLeft(ReplacePair(s, '\r', '\n', '\n'));
  }

  /** Every carriage return becomes a line feed and takes the line feed after it along. */
  lemma {:induction false} LineEndsAre(s: string)
    ensures LineEnds(s) ==
            if s == "" then ""
            else if s[0] != '\r' then [s[0]] + LineEnds(s[1..])
            else ['\n'] + LineEnds(if |s| > 1 && s[1] == '\n' then s[2..] else s[1..])
  {
    if s != "" && s[0] == '\r' && |s| > 1 && s[1] == '\n' {
      assert s[1..][1..] == s[2..];
      var rest := ReplacePair(s[2..], '\r', '\n', '\n');
      assert (['\n'] + rest)[1..] == rest;
    } else if s != "" {
      var rest := ReplacePair(s[1..], '\r', '\n', '\n');
      assert ([s[0]] + rest)[1..] == rest;
    }
  }

  /** Projected text is settled, and projecting settled text changes nothing; hence projecting twice is once. */
  lemma {:induction false} ProjectTextSettles(s: string)
    ensures Settled(ProjectText(s))
    ensures Settled(s) <==> ProjectText(s) == s
  {
    TrimIsTrimmed(LineEnds(s));
    LineEndsHasNoReturn(s);
    if Settled(s) {
      LineEndsSame(s);
      TrimSettled(s);
    }
  }

  // ---------- attribute values ----------

  predicate OneLine(s: string) {
    '\t' !in s && '\n' !in s && '\r' !in s
  }

  /** Tabs and line feeds as spaces. */
  function Spaced(s: string): string {
    seq(|s|, i requires 0 <= i < |s| => if s[i] == '\t' || s[i] == '\n' then ' ' else s[i])
  }

  /** An attribute value as it is read: each line end, and each tab, is one space (section 3.3.3 of XML 1.0). */
  function AttributeText(s: string): string {
    Spaced(LineEnds(s))
  }

  /** Reading leaves an attribute value unchanged exactly when it has no tab and no line end; hence reading twice
      is reading once. */
  lemma {:induction false} AttributeTextSettles(s: string)
    ensures OneLine(AttributeText(s)) && |AttributeText(s)| == |LineEnds(s)|
    ensures forall i :: 0 <= i < |LineEnds(s)| && AttributeText(s)[i] != LineEnds(s)[i] ==> AttributeText(s)[i] == ' '
    ensures OneLine(s) <==> AttributeText(s) == s
  {
    LineEndsHasNoReturn(s);
    if OneLine(s) {
      LineEndsSame(s);
    }
  }

  // ---------- changes make text lighter ----------

  /** The length of a text, a carriage return counted twice. */
  function Weight(s: string): nat {
    if s == "" then 0 else (if s[0] == '\r' then 2 else 1) + Weight(s[1..])
  }

  lemma {:induction false} WeightConcat(a: string, b: string)
    ensures Weight(a + b) == Weight(a) + Weight(b)
  {
    if a == "" {
      assert a + b == b;
    } else {
      assert (a + b)[1..] == a[1..] + b;
      WeightConcat(a[1..], b);
    }
  }

  lemma {:induction false} WeightPositive(s: string)
    ensures s == "" || Weight(s) > 0
  {
  }

  /** A proper part of a text is lighter. */
  lemma {:induction false} PartLighter(s: string, i: nat, j: nat)
    requires i <= j <= |s|
    ensures s[i..j] == s || Weight(s[i..j]) < Weight(s)
  {
    var a, b, c := s[..i], s[i..j], s[j..];
    assert s == a + b + c;
    WeightConcat(a + b, c);
    WeightConcat(a, b);
    WeightPositive(a);
    WeightPositive(c);
  }

  lemma {:induction false} PairLighter(s: string)
    ensures var out := ReplacePair(s, '\r', '\n', '\n'); out == s || Weight(out) < Weight(s)
    decreases |s|
  {
    if s != "" {
      if |s| >= 2 && s[0] == '\r' && s[1] == '\n' {
        PairLighter(s[2..]);
        assert s[1..][1..] == s[2..];
        var rest := ReplacePair(s[2..], '\r', '\n', '\n');
        assert (['\n'] + rest)[1..] == rest;
      } else {
        PairLighter(s[1..]);
        var rest := ReplacePair(s[1..], '\r', '\n', '\n');
        assert ([s[0]] + rest)[1..] == rest;
        assert s == [s[0]] + s[1..];
      }
    }
  }

  lemma {:induction false} ReturnLighter(s: string)
    ensures var out := ReplaceChar(s, '\r', "\n"); out == s || Weight(out) < Weight(s)
  {
    if s != "" {
      ReturnLighter(s[1..]);
      var rest := ReplaceChar(s[1..], '\r', "\n");
      var head := if s[0] == '\r' then "\n" else [s[0]];
      assert (head + rest)[1..] == rest;
      assert s == [s[0]] + s[1..];
    }
  }

  lemma {:induction false} StartLighter(s: string)
    ensures TrimStart(s) == s || Weight(TrimStart(s)) < Weight(s)
  {
    if s != "" && IsSpace(s[0]) {
      StartLighter(s[1..]);
      hide IsSpace;
    }
  }

  lemma {:induction false} EndLighter(s: string)
    ensures TrimEnd(s) == s || Weight(TrimEnd(s)) < Weight(s)
  {
    if s != "" && IsSpace(s[|s| - 1]) {
      var init := s[..|s| - 1];
      EndLighter(init);
      PartLighter(s, 0, |init|);
      assert s[0..|init|] == init;
      hide IsSpace, Weight;
    }
  }

  /** project_xml_text leaves a text as it is or makes it lighter. */
  lemma {:induction false} ProjectLighter(s: string)
    ensures ProjectText(s) == s || Weight(ProjectText(s)) < Weight(s)
  {
    hide TrimStart, TrimEnd, Weight, ReplacePair, ReplaceChar;
    PairLighter(s);
    ReturnLighter(ReplacePair(s, '\r', '\n', '\n'));
    StartLighter(LineEnds(s));
    EndLighter(TrimStart(LineEnds(s)));
  }
}
