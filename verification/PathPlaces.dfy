/** The places that path tests single out, told by the member names and indices on the way. */
module PathPlaces {
  import opened Json
  import opened Pointer
  import opened Overlay
  import opened Rules
  import opened Projection
  import opened Adaptation

  const EXCHANGE_TOKENS: Path := ["processDataSet", "exchanges", "exchange"]

  predicate IsIndex(token: string) {
    ParseIndex(token).Some? && ParseIndex(token).value <= USIZE_MAX
  }

  predicate Plain(token: string) {
    '~' !in token && '/' !in token
  }

  lemma {:induction false} PlainEscape(token: string)
    requires '~' !in Escape(token)
    ensures Escape(token) == token
  {
    if token != "" {
      EscapeCons(token);
      assert Escape(token)[0] != '~';
      assert forall c :: c in Escape(token[1..]) ==> c in Escape(token);
      PlainEscape(token[1..]);
    }
  }

  lemma {:induction false} IndexIsPlain(token: string)
    requires ParseIndex(token).Some?
    ensures Plain(token)
  {
    var digits := if token != "" && token[0] == '+' then token[1..] else token;
    forall i | 0 <= i < |token|
      ensures token[i] != '/' && token[i] != '~'
    {
      if digits == token {
        assert '0' <= digits[i] <= '9';
      } else if i > 0 {
        assert token[i] == digits[i - 1];
      }
    }
  }

  /** A segment reads as an index, or as a plain name, exactly when the token does. */
  lemma {:induction false} EscapedToken(token: string, name: string)
    requires Plain(name)
    ensures Escape(token) == name <==> token == name
    ensures ParseIndex(Escape(token)) == ParseIndex(token)
  {
    hide Escape, ParseIndex;
    EscapePlain(name);
    if Escape(token) == name || ParseIndex(Escape(token)).Some? {
      if ParseIndex(Escape(token)).Some? {
        IndexIsPlain(Escape(token));
      }
      PlainEscape(token);
    }
    if ParseIndex(token).Some? {
      IndexIsPlain(token);
      EscapePlain(token);
    }
  }

  /** The exchanges are the member exchange of exchanges, or its items. */
  lemma {:induction false} ExchangePlaces(ts: Path)
    ensures IsExchangePath(Encode(ts)) <==>
            EXCHANGE_TOKENS <= ts && (|ts| == 3 || (|ts| == 4 && IsIndex(ts[3])))
  {
    ExchangeTokens();
    hide Encode, ParseIndex, EXCHANGE_TOKENS;
    if IsExchangePath(Encode(ts)) {
      if Encode(ts) == EXCHANGE_PATH {
        EncodeInjective(ts, EXCHANGE_TOKENS);
      } else {
        var index := Encode(ts)[|EXCHANGE_PATH| + 1..];
        assert Encode(ts) == Join(EXCHANGE_PATH, index);
        IndexIsPlain(index);
        EscapePlain(index);
        EncodeChild(EXCHANGE_TOKENS, index);
        EncodeInjective(ts, EXCHANGE_TOKENS + [index]);
      }
    }
    if EXCHANGE_TOKENS <= ts && (|ts| == 3 || (|ts| == 4 && IsIndex(ts[3]))) {
      IsExchangePlace(ts);
    }
  }

  lemma {:induction false} IsExchangePlace(ts: Path)
    requires EXCHANGE_TOKENS <= ts && (|ts| == 3 || (|ts| == 4 && IsIndex(ts[3])))
    ensures IsExchangePath(Encode(ts))
  {
    ExchangeTokens();
    hide Encode, ParseIndex, EXCHANGE_TOKENS;
    if |ts| == 3 {
      assert ts == EXCHANGE_TOKENS;
    } else {
      assert ts == EXCHANGE_TOKENS + [ts[3]];
      IndexIsPlain(ts[3]);
      EscapePlain(ts[3]);
      EncodeChild(EXCHANGE_TOKENS, ts[3]);
      assert Encode(ts)[|EXCHANGE_PATH| + 1..] == ts[3];
    }
  }

  lemma EncodeThree(a: string, b: string, c: string)
    requires Plain(a) && Plain(b) && Plain(c)
    ensures Encode([a, b, c]) == Join(Join(Join("", a), b), c)
  {
    EscapePlain(a);
    EscapePlain(b);
    EscapePlain(c);
    EncodeChild([], a);
    EncodeChild([a], b);
    EncodeChild([a, b], c);
    assert [] + [a] == [a] && [a] + [b] == [a, b] && [a, b] + [c] == [a, b, c];
  }

  lemma ExchangeTokens()
    ensures |EXCHANGE_TOKENS| == 3 && Encode(EXCHANGE_TOKENS) == EXCHANGE_PATH
  {
    ExchangeNames();
    EncodeThree("processDataSet", "exchanges", "exchange");
    hide Encode;
  }

  /** The reviews are the members of that name, or the items of one. */
  lemma {:induction false} ReviewPlaces(ts: Path)
    ensures IsReviewPath(Encode(ts)) <==>
            ts != [] && (ts[|ts| - 1] == "review" || (IsIndex(ts[|ts| - 1]) && |ts| > 1 && ts[|ts| - 2] == "review"))
  {
    SplitEncode(ts);
    SplitPlain("");
    var parts := SplitSlash(Encode(ts));
    assert Plain("review");
    if ts != [] {
      EscapedToken(ts[|ts| - 1], "review");
      if |ts| > 1 {
        EscapedToken(ts[|ts| - 2], "review");
      } else {
        FirstSegment(ts);
      }
    }
    hide Escape, ParseIndex, SplitSlash, Plain;
  }

  lemma {:induction false} FirstSegment(ts: Path)
    ensures SplitSlash(Encode(ts))[0] == ""
  {
    hide Escape;
    if ts != [] {
      FirstSegment(ts[..|ts| - 1]);
      EscapeHasNoSlash(ts[|ts| - 1]);
      SplitJoin(Encode(ts[..|ts| - 1]), Escape(ts[|ts| - 1]));
    }
  }

  // ---------- texts and children ----------

  predicate OccursAt(s: string, word: string, i: nat) {
    i + |word| <= |s| && s[i..i + |word|] == word
  }

  lemma OccursNext(s: string, word: string, i: nat)
    requires s != ""
    ensures OccursAt(s[1..], word, i) <==> OccursAt(s, word, i + 1)
  {
    if i + 1 + |word| <= |s| {
      assert s[1..][i..i + |word|] == s[i + 1..i + 1 + |word|];
    }
  }

  lemma OccursFirst(s: string, word: string)
    ensures OccursAt(s, word, 0) <==> word <= s
  {
  }

  lemma {:induction false} ContainsIff(s: string, word: string)
    ensures Contains(s, word) <==> exists i: nat :: OccursAt(s, word, i)
  {
    OccursFirst(s, word);
    assert s == "" ==> forall i: nat :: OccursAt(s, word, i) ==> i == 0;
    hide OccursAt;
    if s != "" {
      ContainsIff(s[1..], word);
      if i: nat :| OccursAt(s[1..], word, i) {
        OccursNext(s, word, i);
      }
      if i: nat :| i > 0 && OccursAt(s, word, i) {
        OccursNext(s, word, i - 1);
      }
    }
  }

  /** Short texts are those below a general comment, a comment or a base name. */
  lemma {:induction false} ShortTextPlaces(path: string)
    ensures TakesShortText(path) <==>
            exists word, i: nat :: word in ["/generalComment", "/comment", "/baseName"] && OccursAt(path, word, i)
  {
    forall word: string
      ensures Contains(path, word) <==> exists i: nat :: OccursAt(path, word, i)
    {
      ContainsIff(path, word);
    }
    hide Contains, OccursAt;
  }
}
