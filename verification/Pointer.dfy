/** JSON pointers (RFC 6901) as projection.rs writes and reads them. */
module Pointer {
  import opened Json

  function ReplaceChar(s: string, c: char, with: string): string {
    if s == "" then "" else (if s[0] == c then with else [s[0]]) + ReplaceChar(s[1..], c, with)
  }

  /** Replaces each leftmost, non-overlapping occurrence of the two characters `a`, `b` by `with`. */
  function ReplacePair(s: string, a: char, b: char, with: char): string {
    if s == "" then ""
    else if |s| >= 2 && s[0] == a && s[1] == b then [with] + ReplacePair(s[2..], a, b, with)
    else [s[0]] + ReplacePair(s[1..], a, b, with)
  }

  function Escape(key: string): string {
    ReplaceChar(ReplaceChar(key, '~', "~0"), '/', "~1")
  }

  function Unescape(part: string): string {
    ReplacePair(ReplacePair(part, '~', '1', '/'), '~', '0', '~')
  }

  /** The pieces of `s` between slashes. */
  function SplitSlash(s: string): (parts: seq<string>)
    ensures |parts| >= 1
  {
    if s == "" then [""]
    else
      var rest := SplitSlash(s[1..]);
      if s[0] == '/' then [""] + rest else [[s[0]] + rest[0]] + rest[1..]
  }

  function Join(base: string, segment: string): string {
    base + "/" + segment
  }

  /** The pointer that names the given member names and indices in turn. */
  function Encode(tokens: seq<string>): string {
    if tokens == [] then "" else Join(Encode(tokens[..|tokens| - 1]), Escape(tokens[|tokens| - 1]))
  }

  function UnescapeAll(parts: seq<string>): (r: seq<string>)
    ensures |r| == |parts|
    ensures forall i :: 0 <= i < |r| ==> r[i] == Unescape(parts[i])
  {
    if parts == [] then [] else [Unescape(parts[0])] + UnescapeAll(parts[1..])
  }

  /** The tokens set_pointer reads from a pointer. */
  function Decode(pointer: string): seq<string> {
    UnescapeAll(SplitSlash(pointer)[1..])
  }

  /** The path test of the recovery builder. */
  predicate IsSameOrAncestor(ancestor: string, path: string) {
    ancestor == path
    || (ancestor <= path && |ancestor| < |path| && path[|ancestor|] == '/')
  }

  // ---------- escaping ----------

  lemma ReplaceCharConcat(s: string, t: string, c: char, with: string)
    ensures ReplaceChar(s + t, c, with) == ReplaceChar(s, c, with) + ReplaceChar(t, c, with)
  {
    if s == "" {
      assert s + t == t;
    } else {
      assert (s + t)[1..] == s[1..] + t;
      ReplaceCharConcat(s[1..], t, c, with);
    }
  }

  /** What Escape makes of a key, seen one character at a time. */
  lemma EscapeCons(key: string)
    requires key != ""
    ensures Escape(key)
         == (if key[0] == '~' then "~0" else if key[0] == '/' then "~1" else [key[0]]) + Escape(key[1..])
  {
    var head := if key[0] == '~' then "~0" else [key[0]];
    ReplaceCharConcat(head, ReplaceChar(key[1..], '~', "~0"), '/', "~1");
    assert ReplaceChar("~0", '/', "~1") == "~0" by {
      assert "~0"[1..] == "0";
      assert "0"[1..] == "";
      assert ReplaceChar("0", '/', "~1") == "0";
    }
    assert [key[0]][1..] == "";
  }

  lemma {:induction false} EscapeHasNoSlash(key: string)
    ensures '/' !in Escape(key)
  {
    if key != "" {
      EscapeCons(key);
      EscapeHasNoSlash(key[1..]);
    }
  }

  lemma {:induction false} FirstPass(key: string)
    ensures ReplacePair(Escape(key), '~', '1', '/') == ReplaceChar(key, '~', "~0")
  {
    if key != "" {
      EscapeCons(key);
      FirstPass(key[1..]);
      FirstPassStep(key[0], Escape(key[1..]));
      var done := ReplaceChar(key[1..], '~', "~0");
      assert ReplaceChar(key, '~', "~0") == (if key[0] == '~' then "~0" else [key[0]]) + done;
    }
  }

  /** The first pass over one escaped character. */
  lemma {:induction false} FirstPassStep(c: char, rest: string)
    ensures ReplacePair((if c == '~' then "~0" else if c == '/' then "~1" else [c]) + rest, '~', '1', '/')
         == (if c == '~' then "~0" else [c]) + ReplacePair(rest, '~', '1', '/')
  {
    if c == '~' {
      var text, tail := "~0" + rest, "0" + rest;
      assert text[0] == '~' && text[1] == '0' && text[1..] == tail;
      assert tail[0] == '0' && tail[1..] == rest;
      assert ReplacePair(tail, '~', '1', '/') == "0" + ReplacePair(rest, '~', '1', '/');
    } else if c == '/' {
      var text := "~1" + rest;
      assert text[0] == '~' && text[1] == '1' && text[2..] == rest;
    } else {
      var text := [c] + rest;
      assert text[0] == c && text[1..] == rest;
    }
  }

  lemma SecondPass(key: string)
    ensures ReplacePair(ReplaceChar(key, '~', "~0"), '~', '0', '~') == key
  {
    if key != "" {
      SecondPass(key[1..]);
      var rest := ReplaceChar(key[1..], '~', "~0");
      if key[0] == '~' {
        assert ("~0" + rest)[2..] == rest;
      } else {
        assert ([key[0]] + rest)[1..] == rest;
      }
    }
  }

  /** Decoding undoes escaping for every member name (sections 3 and 4 of RFC 6901). */
  lemma UnescapeEscape(key: string)
    ensures Unescape(Escape(key)) == key
  {
    FirstPass(key);
    SecondPass(key);
  }

  // ---------- pointers as token sequences ----------

  lemma SplitPlain(part: string)
    requires '/' !in part
    ensures SplitSlash(part) == [part]
  {
    if part != "" {
      assert part[0] in part && forall c :: c in part[1..] ==> c in part;
      SplitPlain(part[1..]);
      assert [part[0]] + part[1..] == part;
    }
  }

  /** Appending one slash-free segment appends one piece. */
  lemma SplitJoin(base: string, segment: string)
    requires '/' !in segment
    ensures SplitSlash(Join(base, segment)) == SplitSlash(base) + [segment]
  {
    var whole := Join(base, segment);
    if base == "" {
      assert whole[1..] == segment;
      SplitPlain(segment);
    } else {
      assert whole[1..] == Join(base[1..], segment);
      SplitJoin(base[1..], segment);
    }
  }

  lemma {:induction false} SplitEncode(tokens: seq<string>)
    ensures |SplitSlash(Encode(tokens))| == |tokens| + 1
    ensures forall i :: 0 <= i < |tokens| ==> SplitSlash(Encode(tokens))[i + 1] == Escape(tokens[i])
  {
    if tokens != [] {
      var init := tokens[..|tokens| - 1];
      SplitEncode(init);
      EscapeHasNoSlash(tokens[|tokens| - 1]);
      SplitJoin(Encode(init), Escape(tokens[|tokens| - 1]));
      assert forall i :: 0 <= i < |init| ==> init[i] == tokens[i];
    }
  }

  /** set_pointer reads back exactly the tokens a recorded path was built from. */
  lemma DecodeEncode(tokens: seq<string>)
    ensures Decode(Encode(tokens)) == tokens
  {
    SplitEncode(tokens);
    forall i | 0 <= i < |tokens|
      ensures Decode(Encode(tokens))[i] == tokens[i]
    {
      UnescapeEscape(tokens[i]);
    }
  }

  lemma EncodeInjective(a: seq<string>, b: seq<string>)
    requires Encode(a) == Encode(b)
    ensures a == b
  {
    DecodeEncode(a);
    DecodeEncode(b);
  }

  lemma {:induction false} EncodeConcat(a: seq<string>, b: seq<string>)
    ensures Encode(a + b) == Encode(a) + Encode(b)
  {
    if b == [] {
      assert a + b == a;
    } else {
      var ab := a + b;
      assert ab[..|ab| - 1] == a + b[..|b| - 1];
      EncodeConcat(a, b[..|b| - 1]);
    }
  }

  lemma EncodeStartsWithSlash(tokens: seq<string>)
    requires tokens != []
    ensures Encode(tokens) != "" && Encode(tokens)[0] == '/'
  {
    if |tokens| > 1 {
      EncodeStartsWithSlash(tokens[..|tokens| - 1]);
    }
  }

  lemma {:induction false} SplitStep(s: string)
    requires s != ""
    ensures var rest := SplitSlash(s[1..]);
            SplitSlash(s) == if s[0] == '/' then [""] + rest else [[s[0]] + rest[0]] + rest[1..]
  {
  }

  lemma {:induction false} Regroup(c: char, parts: seq<string>, more: seq<string>)
    requires parts != []
    ensures [""] + (parts + more) == [""] + parts + more
    ensures [[c] + (parts + more)[0]] + (parts + more)[1..] == [[c] + parts[0]] + parts[1..] + more
  {
  }

  lemma {:induction false} SplitBase(base: string, rest: string)
    requires rest != "" && rest[0] == '/'
    ensures SplitSlash(base + rest) == SplitSlash(base) + SplitSlash(rest)[1..]
  {
    if base == "" {
      assert base + rest == rest;
      assert SplitSlash(rest) == [""] + SplitSlash(rest)[1..];
    } else {
      hide SplitSlash;
      var whole, tail := base + rest, base[1..] + rest;
      assert whole[1..] == tail && whole[0] == base[0];
      SplitBase(base[1..], rest);
      SplitStep(base);
      SplitStep(whole);
      Regroup(base[0], SplitSlash(base[1..]), SplitSlash(rest)[1..]);
    }
  }

  lemma {:induction false} PrefixIsAncestor(a: seq<string>, b: seq<string>)
    requires a <= b
    ensures IsSameOrAncestor(Encode(a), Encode(b))
  {
    var rest := b[|a|..];
    assert b == a + rest;
    EncodeConcat(a, rest);
    if rest != [] {
      EncodeStartsWithSlash(rest);
    }
  }

  lemma {:induction false} StringAncestorIsPrefix(a: seq<string>, b: seq<string>)
    requires IsSameOrAncestor(Encode(a), Encode(b)) && Encode(a) != Encode(b)
    ensures a <= b
  {
    var rest := Encode(b)[|Encode(a)|..];
    assert Encode(b) == Encode(a) + rest;
    SplitBase(Encode(a), rest);
    SplitEncode(a);
    SplitEncode(b);
    var left, right := SplitSlash(Encode(a)), SplitSlash(Encode(b));
    assert left <= right;
    forall i | 0 <= i < |a|
      ensures a[i] == b[i]
    {
      assert left[i + 1] == right[i + 1];
      UnescapeEscape(a[i]);
      UnescapeEscape(b[i]);
    }
  }

  /** The builder's string test is exactly the prefix relation on tokens. */
  lemma {:induction false} AncestorIsPrefix(a: seq<string>, b: seq<string>)
    ensures IsSameOrAncestor(Encode(a), Encode(b)) <==> a <= b
  {
    if a <= b {
      PrefixIsAncestor(a, b);
    }
    if IsSameOrAncestor(Encode(a), Encode(b)) {
      if Encode(a) == Encode(b) {
        EncodeInjective(a, b);
      } else {
        StringAncestorIsPrefix(a, b);
      }
    }
  }

  // ---------- array indices ----------

  function Digit(n: nat): (c: char)
    requires n < 10
    ensures '0' <= c <= '9' && c as int - '0' as int == n
  {
    ('0' as int + n) as char
  }

  /** An index printed in decimal. */
  function Decimal(n: nat): (s: string)
    ensures s != "" && forall i :: 0 <= i < |s| ==> '0' <= s[i] <= '9'
  {
    if n < 10 then [Digit(n)] else Decimal(n / 10) + [Digit(n % 10)]
  }

  predicate AllDigits(s: string) {
    forall i :: 0 <= i < |s| ==> '0' <= s[i] <= '9'
  }

  function DigitsValue(s: string): nat
    requires AllDigits(s)
  {
    if s == "" then 0 else 10 * DigitsValue(s[..|s| - 1]) + (s[|s| - 1] as int - '0' as int)
  }

  /** Rust's unsigned parser: an optional plus sign and at least one digit. Values beyond any array length
      are kept, since reading past the end and failing to parse are the same error to set_pointer. */
  function ParseIndex(part: string): Option<nat> {
    var digits := if part != "" && part[0] == '+' then part[1..] else part;
    if digits != "" && AllDigits(digits) then Some(DigitsValue(digits)) else None
  }

  lemma DecimalValue(n: nat)
    ensures DigitsValue(Decimal(n)) == n
  {
    if n >= 10 {
      DecimalValue(n / 10);
      var s := Decimal(n);
      assert s[..|s| - 1] == Decimal(n / 10);
    }
  }

  /** An index written into a path is read back by set_pointer. */
  lemma ParseDecimal(n: nat)
    ensures ParseIndex(Decimal(n)) == Some(n)
  {
    DecimalValue(n);
  }

  /** A printed index contains no character that escaping changes. */
  lemma EscapeDigits(s: string)
    requires AllDigits(s)
    ensures Escape(s) == s
  {
    if s != "" {
      EscapeCons(s);
      EscapeDigits(s[1..]);
    }
  }
}
