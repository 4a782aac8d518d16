/** Canonical JSON of the specification pin, from spec_pin.rs: sorted names and no white space. */
module CanonicalJson {
  import Sorting
  import opened Json
  import opened TextOrder

  // ---------- strings (section 7 of RFC 8259) ----------

  function HexDigit(n: nat): char
    requires n < 16
  {
    "0123456789abcdef"[n]
  }

  function HexValue(c: char): Option<nat> {
    if '0' <= c <= '9' then Some(c as int - '0' as int)
    else if 'a' <= c <= 'f' then Some(c as int - 'a' as int + 10)
    else if 'A' <= c <= 'F' then Some(c as int - 'A' as int + 10)
    else None
  }

  function EscapedChar(c: char): string {
    if c == '"' then "\\\""
    else if c == '\\' then "\\\\"
    else if c == '\U{0008}' then "\\b"
    else if c == '\t' then "\\t"
    else if c == '\n' then "\\n"
    else if c == '\U{000C}' then "\\f"
    else if c == '\r' then "\\r"
    else if c as int < 0x20 then "\\u00" + [HexDigit(c as int / 16), HexDigit(c as int % 16)]
    else [c]
  }

  function Escaped(s: string): string {
    if s == "" then "" else EscapedChar(s[0]) + Escaped(s[1..])
  }

  function Quoted(s: string): string {
    "\"" + Escaped(s) + "\""
  }

  /** A character the escape sequence at the front of `text` stands for, with what follows it. */
  function ReadEscape(text: string): Option<(char, string)>
    requires text != "" && text[0] == '\\'
  {
    if |text| < 2 then None
    else
      match text[1]
      case '"' => Some(('"', text[2..]))
      case '\\' => Some(('\\', text[2..]))
      case '/' => Some(('/', text[2..]))
      case 'b' => Some(('\U{0008}', text[2..]))
      case 't' => Some(('\t', text[2..]))
      case 'n' => Some(('\n', text[2..]))
      case 'f' => Some(('\U{000C}', text[2..]))
      case 'r' => Some(('\r', text[2..]))
      case 'u' =>
        if |text| < 6 || HexValue(text[2]) != Some(0) || HexValue(text[3]) != Some(0) then None
        else
          (match (HexValue(text[4]), HexValue(text[5]))
           case (Some(h), Some(l)) => if h < 16 && l < 16 then Some(((16 * h + l) as char, text[6..])) else None
           case _ => None)
      case _ => None
  }

  /** Reads the rest of a string after its opening quotation mark; of the \u escapes only those below U+0100. */
  function ReadString(text: string): Option<(string, string)>
    decreases |text|
  {
    if text == "" then None
    else if text[0] == '"' then Some(("", text[1..]))
    else if text[0] == '\\' then
      match ReadEscape(text)
      case None => None
      case Some((c, rest)) =>
        if |rest| >= |text| then None
        else
          (match ReadString(rest) case None => None case Some((s, after)) => Some(([c] + s, after)))
    else if text[0] as int < 0x20 then None
    else
      match ReadString(text[1..])
      case None => None
      case Some((s, after)) => Some(([text[0]] + s, after))
  }

  lemma {:induction false} ReadEscaped1(c: char, rest: string)
    ensures EscapedChar(c)[0] == '\\' ==> ReadEscape(EscapedChar(c) + rest) == Some((c, rest))
    ensures EscapedChar(c)[0] != '\\' ==> EscapedChar(c) == [c] && c != '"' && c as int >= 0x20
  {
    var text := EscapedChar(c) + rest;
    assert text[|EscapedChar(c)|..] == rest;
    if |EscapedChar(c)| == 6 {
      var h, l := c as int / 16, c as int % 16;
      assert h < 2;
      HexDigitValue(h);
      HexDigitValue(l);
      assert text[4] == HexDigit(h) && text[5] == HexDigit(l);
    }
  }

  lemma HexDigitValue(n: nat)
    requires n < 16
    ensures HexValue(HexDigit(n)) == Some(n)
  {
  }

  /** A reader of JSON strings gets back what was quoted, and the text after it. */
  lemma {:induction false} ReadQuoted(s: string, rest: string)
    ensures ReadString(Escaped(s) + "\"" + rest) == Some((s, rest))
    decreases |s|
  {
    if s != "" {
      var after := Escaped(s[1..]) + "\"" + rest;
      assert Escaped(s) + "\"" + rest == EscapedChar(s[0]) + after;
      ReadQuoted(s[1..], rest);
      ReadEscaped1(s[0], after);
      assert s == [s[0]] + s[1..];
      assert EscapedChar(s[0]) == [s[0]] ==> (EscapedChar(s[0]) + after)[1..] == after;
    } else {
      assert ("\"" + rest)[1..] == rest;
    }
  }

  // ---------- sorted names ----------

  ghost predicate IsLeast(k: string, keys: set<string>) {
    k in keys && forall o :: o in keys ==> StrLe(k, o)
  }

  lemma {:induction false} Least(keys: set<string>) returns (k: string)
    requires keys != {}
    ensures IsLeast(k, keys)
  {
    hide StrLe;
    var l :| l in keys;
    StrLeTotal(l, l);
    k := l;
    assert keys == {l} + (keys - {l});
    if keys - {l} != {} {
      k := Least(keys - {l});
      StrLeTotal(k, l);
      if !StrLe(k, l) {
        forall o | o in keys - {l}
          ensures StrLe(l, o)
        {
          StrLeTransitive(l, k, o);
        }
        k := l;
      }
    }
  }

  lemma LeastExists(keys: set<string>)
    requires keys != {}
    ensures exists k :: IsLeast(k, keys)
  {
    var k := Least(keys);
  }

  ghost function SortedKeys(keys: set<string>): (r: seq<string>)
    ensures |r| == |keys| && forall k :: k in r <==> k in keys
  {
    if keys == {} then []
    else
      LeastExists(keys);
      var k :| IsLeast(k, keys);
      [k] + SortedKeys(keys - {k})
  }

  ghost predicate NoRepeats(names: seq<string>) {
    forall i, j :: 0 <= i < j < |names| ==> names[i] != names[j]
  }

  lemma {:induction false} FirstIsLeast(names: seq<string>, keys: set<string>)
    requires names != [] && SortedNames(names) && forall k :: k in names <==> k in keys
    ensures names[0] in keys && SortedKeys(keys) == [names[0]] + SortedKeys(keys - {names[0]})
  {
    hide StrLe;
    assert names[0] in keys;
    LeastExists(keys);
    var k :| IsLeast(k, keys) && SortedKeys(keys) == [k] + SortedKeys(keys - {k});
    var i :| 0 <= i < |names| && names[i] == k;
    assert StrLe(k, names[0]);
    StrLeTotal(k, k);
    assert StrLe(names[0], names[i]);
    StrLeAntisymmetric(names[0], k);
  }

  /** There is only one way to list a set of names in order. */
  lemma {:induction false} SortedIsUnique(names: seq<string>, keys: set<string>)
    requires SortedNames(names) && NoRepeats(names) && forall k :: k in names <==> k in keys
    ensures names == SortedKeys(keys)
  {
    if names == [] {
      assert keys == {};
    } else {
      FirstIsLeast(names, keys);
      hide SortedKeys, StrLe;
      var rest := names[1..];
      assert names == [names[0]] + rest;
      forall o
        ensures o in rest <==> o in keys - {names[0]}
      {
        if o in rest {
          var j :| 0 <= j < |rest| && rest[j] == o;
          assert names[j + 1] == o;
        }
      }
      SortedIsUnique(rest, keys - {names[0]});
    }
  }

  // ---------- printing ----------

  ghost function Print(v: Value): string
    decreases v, 1
  {
    match v
    case Null => "null"
    case Bool(flag) => if flag then "true" else "false"
    case Num(text) => text
    case Str(text) => Quoted(text)
    case Arr(_) => "[" + PrintItems(v, 0) + "]"
    case Obj(m) => "{" + PrintMembers(v, SortedKeys(m.Keys), 0) + "}"
  }

  function Comma(i: nat): string {
    if i > 0 then "," else ""
  }

  ghost function PrintItems(v: Value, i: nat): string
    requires v.Arr? && i <= |v.items|
    decreases v, 0, |v.items| - i
  {
    if i == |v.items| then "" else Comma(i) + (Print(v.items[i]) + PrintItems(v, i + 1))
  }

  ghost function PrintMembers(v: Value, names: seq<string>, i: nat): string
    requires v.Obj? && i <= |names| && forall k :: k in names ==> k in v.members
    decreases v, 0, |names| - i
  {
    if i == |names| then ""
    else Comma(i) + (Quoted(names[i]) + (":" + (Print(v.members[names[i]]) + PrintMembers(v, names, i + 1))))
  }

  predicate NumberChar(c: char) {
    '0' <= c <= '9' || c == '-' || c == '+' || c == '.' || c == 'e' || c == 'E'
  }

  /** Number texts consist of the characters that JSON numbers are written with. */
  ghost predicate NumbersWritten(v: Value) {
    match v
    case Num(text) => text != "" && forall i :: 0 <= i < |text| ==> NumberChar(text[i])
    case Arr(items) => forall i :: 0 <= i < |items| ==> NumbersWritten(items[i])
    case Obj(m) => forall k :: k in m ==> NumbersWritten(m[k])
    case _ => true
  }

  // ---------- the text of a value ----------

  /** Texts with a comma between them. */
  function WithCommas(parts: seq<string>): string {
    if parts == [] then "" else if |parts| == 1 then parts[0] else parts[0] + "," + WithCommas(parts[1..])
  }

  /** The text of a value in the grammar of RFC 8259, without white space and with the names of an object in order. */
  ghost predicate IsText(v: Value, text: string)
    decreases v, 0
  {
    match v
    case Null => text == "null"
    case Bool(true) => text == "true"
    case Bool(false) => text == "false"
    case Num(number) => text == number
    case Str(s) => text == Quoted(s)
    case Arr(items) =>
      exists parts :: |parts| == |items| && text == "[" + WithCommas(parts) + "]"
        && forall i :: 0 <= i < |items| ==> IsText(items[i], parts[i])
    case Obj(m) =>
      exists names, parts :: IsListing(names, m.Keys) && |parts| == |names| && text == "{" + WithCommas(parts) + "}"
        && forall i :: 0 <= i < |names| ==> IsMemberText(names[i], m[names[i]], parts[i])
  }

  ghost predicate IsMemberText(name: string, v: Value, part: string)
    decreases v, 1
  {
    exists text :: IsText(v, text) && part == Quoted(name) + ":" + text
  }

  /** The names of a set, each once, in order. */
  ghost predicate IsListing(names: seq<string>, keys: set<string>) {
    SortedNames(names) && NoRepeats(names) && forall k :: k in names <==> k in keys
  }

  /** Control characters are written as hexadecimal escapes with small letters, other characters as they are. */
  lemma EscapesAre(c: char)
    ensures c in "\"\\" ==> EscapedChar(c) == ['\\', c]
    ensures c as int < 0x20 && c !in "\U{0008}\t\n\U{000C}\r" ==>
              |EscapedChar(c)| == 6 && EscapedChar(c)[..4] == "\\u00"
              && forall i :: 4 <= i < 6 ==> '0' <= EscapedChar(c)[i] <= '9' || 'a' <= EscapedChar(c)[i] <= 'f'
    ensures c as int >= 0x20 && c !in "\"\\" ==> EscapedChar(c) == [c]
  {
  }

  lemma {:induction false} CommasNext(parts: seq<string>, i: nat)
    requires i < |parts|
    ensures WithCommas(parts[i..]) == parts[i] + if i + 1 == |parts| then "" else "," + WithCommas(parts[i + 1..])
  {
    assert parts[i..][1..] == parts[i + 1..];
  }

  lemma {:induction false} ItemsAreText(v: Value, parts: seq<string>, i: nat)
    requires v.Arr? && i <= |v.items| && |parts| == |v.items| && forall j :: 0 <= j < |parts| ==> parts[j] == Print(v.items[j])
    ensures PrintItems(v, i) == if i == |v.items| then "" else Comma(i) + WithCommas(parts[i..])
    decreases |v.items| - i
  {
    hide Print;
    if i < |v.items| {
      ItemsAreText(v, parts, i + 1);
      CommasNext(parts, i);
    }
  }

  lemma {:induction false} MembersAreText(v: Value, names: seq<string>, parts: seq<string>, i: nat)
    requires v.Obj? && i <= |names| && |parts| == |names| && forall k :: k in names ==> k in v.members
    requires forall j :: 0 <= j < |parts| ==> parts[j] == Quoted(names[j]) + ":" + Print(v.members[names[j]])
    ensures PrintMembers(v, names, i) == if i == |names| then "" else Comma(i) + WithCommas(parts[i..])
    decreases |names| - i
  {
    hide Print, Quoted;
    if i < |names| {
      MembersAreText(v, names, parts, i + 1);
      CommasNext(parts, i);
    }
  }

  lemma FrontListing(k: string, rest: seq<string>, keys: set<string>)
    requires IsLeast(k, keys) && IsListing(rest, keys - {k})
    ensures IsListing([k] + rest, keys)
  {
    hide StrLe;
    var names := [k] + rest;
    forall i, j | 0 <= i < j < |names|
      ensures StrLe(names[i], names[j]) && names[i] != names[j]
    {
      assert rest[j - 1] in rest;
    }
    forall o
      ensures o in names <==> o in keys
    {
      assert o in names <==> o == k || o in rest;
    }
  }

  lemma {:induction false} ListingOf(keys: set<string>)
    ensures IsListing(SortedKeys(keys), keys)
  {
    if keys != {} {
      LeastExists(keys);
      var k :| IsLeast(k, keys) && SortedKeys(keys) == [k] + SortedKeys(keys - {k});
      ListingOf(keys - {k});
      hide SortedKeys, IsLeast, IsListing;
      FrontListing(k, SortedKeys(keys - {k}), keys);
    }
  }

  /** What is printed is the text of the value. */
  lemma {:induction false} PrintIsText(v: Value)
    ensures IsText(v, Print(v))
    decreases v, 1
  {
    match v
    case Arr(items) => ArrayIsText(v);
    case Obj(m) => ObjectIsText(v);
    case _ =>
  }

  lemma {:induction false} ArrayIsText(v: Value)
    requires v.Arr?
    ensures IsText(v, Print(v))
    decreases v, 0
  {
    var items := v.items;
    var parts := seq(|items|, i requires 0 <= i < |items| => Print(items[i]));
    forall i | 0 <= i < |items|
      ensures IsText(items[i], parts[i])
    {
      PrintIsText(items[i]);
    }
    ItemsAreText(v, parts, 0);
    assert Print(v) == "[" + WithCommas(parts) + "]" by {
      assert parts[0..] == parts && "" + WithCommas(parts) == WithCommas(parts);
    }
    hide Print, PrintItems, WithCommas;
  }

  lemma {:induction false} ObjectIsText(v: Value)
    requires v.Obj?
    ensures IsText(v, Print(v))
    decreases v, 0
  {
    var m := v.members;
    var names := SortedKeys(m.Keys);
    ListingOf(m.Keys);
    hide SortedKeys, Quoted, IsListing, IsText, IsMemberText;
    var parts := seq(|names|, i requires 0 <= i < |names| => Quoted(names[i]) + ":" + Print(m[names[i]]));
    forall i | 0 <= i < |names|
      ensures IsMemberText(names[i], m[names[i]], parts[i])
    {
      PrintIsText(m[names[i]]);
      MemberIsText(names[i], m[names[i]], Print(m[names[i]]));
    }
    MembersAreText(v, names, parts, 0);
    assert parts[0..] == parts && "" + WithCommas(parts) == WithCommas(parts);
    NamedIsText(m, names, parts);
    assert |names| == 0 ==> parts == [] && WithCommas(parts) == "";
  }

  lemma MemberIsText(name: string, v: Value, text: string)
    requires IsText(v, text)
    ensures IsMemberText(name, v, Quoted(name) + ":" + text)
  {
    hide IsText, Quoted;
  }

  lemma NamedIsText(m: map<string, Value>, names: seq<string>, parts: seq<string>)
    requires IsListing(names, m.Keys) && |parts| == |names|
    requires forall i :: 0 <= i < |names| ==> IsMemberText(names[i], m[names[i]], parts[i])
    ensures IsText(Obj(m), "{" + WithCommas(parts) + "}")
  {
    hide IsListing, IsMemberText, WithCommas;
  }

  // ---------- injectivity ----------

  /** What may follow a value. */
  predicate Follows(s: string) {
    s == "" || s[0] == ',' || s[0] == ']' || s[0] == '}'
  }

  predicate Opens(v: Value, c: char) {
    match v
    case Null => c == 'n'
    case Bool(flag) => c == if flag then 't' else 'f'
    case Num(_) => NumberChar(c)
    case Str(_) => c == '"'
    case Arr(_) => c == '['
    case Obj(_) => c == '{'
  }

  lemma PrintOpens(v: Value)
    requires NumbersWritten(v)
    ensures Print(v) != "" && Opens(v, Print(v)[0])
  {
  }

  lemma Cancel(p: string, s: string, t: string)
    requires p + s == p + t
    ensures s == t
  {
    assert (p + s)[|p|..] == s && (p + t)[|p|..] == t;
  }

  lemma {:induction false} SameQuoted(a: string, b: string, s: string, t: string)
    requires Quoted(a) + s == Quoted(b) + t
    ensures a == b && s == t
  {
    hide Escaped, ReadString;
    assert Quoted(a) + s == "\"" + (Escaped(a) + "\"" + s);
    assert Quoted(b) + t == "\"" + (Escaped(b) + "\"" + t);
    Cancel("\"", Escaped(a) + "\"" + s, Escaped(b) + "\"" + t);
    ReadQuoted(a, s);
    ReadQuoted(b, t);
  }

  function NumberLength(s: string): nat {
    if s == "" || !NumberChar(s[0]) then 0 else 1 + NumberLength(s[1..])
  }

  lemma {:induction false} NumberEnds(a: string, s: string)
    requires Follows(s) && forall i :: 0 <= i < |a| ==> NumberChar(a[i])
    ensures NumberLength(a + s) == |a|
  {
    if a == "" {
      assert a + s == s;
    } else {
      assert (a + s)[1..] == a[1..] + s;
      NumberEnds(a[1..], s);
    }
  }

  lemma {:induction false} SameNumber(a: string, b: string, s: string, t: string)
    requires forall i :: 0 <= i < |a| ==> NumberChar(a[i])
    requires forall i :: 0 <= i < |b| ==> NumberChar(b[i])
    requires Follows(s) && Follows(t) && a + s == b + t
    ensures a == b && s == t
  {
    NumberEnds(a, s);
    NumberEnds(b, t);
    assert (a + s)[..|a|] == a && (b + t)[..|b|] == b;
    Cancel(a, s, t);
  }

  lemma SameConstructor(a: Value, b: Value, s: string, t: string)
    requires NumbersWritten(a) && NumbersWritten(b) && Print(a) + s == Print(b) + t
    ensures a.Null? == b.Null? && a.Bool? == b.Bool? && a.Num? == b.Num? && a.Str? == b.Str? && a.Arr? == b.Arr? && a.Obj? == b.Obj?
    ensures a.Bool? ==> a == b
  {
    PrintOpens(a);
    PrintOpens(b);
    hide Print, NumbersWritten;
    assert (Print(a) + s)[0] == Print(a)[0] && (Print(b) + t)[0] == Print(b)[0];
  }

  /** Printed text determines the value and where it ends. */
  lemma {:induction false} Unambiguous(a: Value, b: Value, s: string, t: string)
    requires NumbersWritten(a) && NumbersWritten(b) && Follows(s) && Follows(t)
    requires Print(a) + s == Print(b) + t
    ensures a == b && s == t
    decreases a, 1
  {
    SameConstructor(a, b, s, t);
    hide Quoted, Follows, SortedKeys, NumberChar, PrintItems, PrintMembers;
    match a
    case Null => Cancel("null", s, t);
    case Bool(flag) => Cancel(Print(a), s, t);
    case Num(text) => SameNumber(text, b.text, s, t);
    case Str(text) => SameQuoted(text, b.value, s, t);
    case Arr(_) =>
      Bracketed("[", PrintItems(a, 0), "]", s, PrintItems(b, 0), t);
      SameItems(a, b, 0, s, t);
      assert a.items[0..] == a.items && b.items[0..] == b.items;
    case Obj(_) =>
      var x, y := SortedKeys(a.members.Keys), SortedKeys(b.members.Keys);
      Bracketed("{", PrintMembers(a, x, 0), "}", s, PrintMembers(b, y, 0), t);
      SameMembers(a, b, x, y, 0, s, t);
      SameMap(a, b, x, y);
  }

  lemma Bracketed(open: string, x: string, close: string, s: string, y: string, t: string)
    requires open + x + close + s == open + y + close + t
    ensures x + (close + s) == y + (close + t)
  {
    assert open + x + close + s == open + (x + (close + s));
    assert open + y + close + t == open + (y + (close + t));
    Cancel(open, x + (close + s), y + (close + t));
  }

  lemma SameMap(a: Value, b: Value, x: seq<string>, y: seq<string>)
    requires a.Obj? && b.Obj? && (forall k :: k in x <==> k in a.members) && (forall k :: k in y <==> k in b.members)
    requires |x| == |y| && forall i :: 0 <= i < |x| ==> x[i] == y[i] && a.members[x[i]] == b.members[y[i]]
    ensures a == b
  {
    assert x == y;
    forall k | k in a.members
      ensures k in b.members && a.members[k] == b.members[k]
    {
      var i :| 0 <= i < |x| && x[i] == k;
    }
    assert a.members == b.members;
  }

  lemma {:induction false} SameItems(a: Value, b: Value, i: nat, s: string, t: string)
    requires a.Arr? && b.Arr? && NumbersWritten(a) && NumbersWritten(b) && i <= |a.items| && i <= |b.items|
    requires PrintItems(a, i) + ("]" + s) == PrintItems(b, i) + ("]" + t)
    ensures |a.items| == |b.items| && a.items[i..] == b.items[i..] && s == t
    decreases a, 0, |a.items| - i
  {
    hide Print, PrintItems, Follows, Comma;
    ItemsOpen(a, i, s);
    ItemsOpen(b, i, t);
    if i == |a.items| {
      Cancel("]", s, t);
    } else {
      var ta, tb := PrintItems(a, i + 1) + ("]" + s), PrintItems(b, i + 1) + ("]" + t);
      ItemsOpen(a, i + 1, s);
      ItemsOpen(b, i + 1, t);
      ItemText(a, i, s);
      ItemText(b, i, t);
      Cancel(Comma(i), Print(a.items[i]) + ta, Print(b.items[i]) + tb);
      Unambiguous(a.items[i], b.items[i], ta, tb);
      SameItems(a, b, i + 1, s, t);
      assert a.items[i..] == [a.items[i]] + a.items[i + 1..] && b.items[i..] == [b.items[i]] + b.items[i + 1..];
    }
  }

  lemma ItemText(v: Value, i: nat, s: string)
    requires v.Arr? && i < |v.items|
    ensures PrintItems(v, i) + ("]" + s) == Comma(i) + (Print(v.items[i]) + (PrintItems(v, i + 1) + ("]" + s)))
  {
    hide Print, Comma;
  }

  lemma MemberText(v: Value, names: seq<string>, i: nat, s: string)
    requires v.Obj? && i < |names| && forall k :: k in names ==> k in v.members
    ensures PrintMembers(v, names, i) + ("}" + s) ==
            Comma(i) + (Quoted(names[i]) + (":" + (Print(v.members[names[i]]) + (PrintMembers(v, names, i + 1) + ("}" + s)))))
  {
    hide Print, Comma, Quoted;
  }

  /** The text at item `i` shows whether there is one. */
  lemma {:induction false} ItemsOpen(v: Value, i: nat, s: string)
    requires v.Arr? && NumbersWritten(v) && i <= |v.items|
    ensures var text := PrintItems(v, i) + ("]" + s);
            && text != "" && (text[0] == ']' <==> i == |v.items|) && (i > 0 ==> Follows(text))
            && (i == |v.items| ==> text == "]" + s)
  {
    if i < |v.items| {
      PrintOpens(v.items[i]);
    }
  }

  lemma {:induction false} MembersOpen(v: Value, names: seq<string>, i: nat, s: string)
    requires v.Obj? && i <= |names| && forall k :: k in names ==> k in v.members
    ensures var text := PrintMembers(v, names, i) + ("}" + s);
            && text != "" && (text[0] == '}' <==> i == |names|) && (i > 0 ==> Follows(text))
            && (i == |names| ==> text == "}" + s)
  {
  }

  lemma {:induction false} SameMembers(a: Value, b: Value, x: seq<string>, y: seq<string>, i: nat, s: string, t: string)
    requires a.Obj? && b.Obj? && NumbersWritten(a) && NumbersWritten(b) && i <= |x| && i <= |y|
    requires (forall k :: k in x ==> k in a.members) && (forall k :: k in y ==> k in b.members)
    requires PrintMembers(a, x, i) + ("}" + s) == PrintMembers(b, y, i) + ("}" + t)
    ensures |x| == |y| && s == t
    ensures forall j :: i <= j < |x| ==> x[j] == y[j] && a.members[x[j]] == b.members[y[j]]
    decreases a, 0, |x| - i
  {
    hide Print, PrintMembers, Follows, Comma, Quoted;
    MembersOpen(a, x, i, s);
    MembersOpen(b, y, i, t);
    if i == |x| {
      Cancel("}", s, t);
    } else {
      var ta, tb := PrintMembers(a, x, i + 1) + ("}" + s), PrintMembers(b, y, i + 1) + ("}" + t);
      var pa, pb := Print(a.members[x[i]]) + ta, Print(b.members[y[i]]) + tb;
      MembersOpen(a, x, i + 1, s);
      MembersOpen(b, y, i + 1, t);
      MemberText(a, x, i, s);
      MemberText(b, y, i, t);
      Cancel(Comma(i), Quoted(x[i]) + (":" + pa), Quoted(y[i]) + (":" + pb));
      SameQuoted(x[i], y[i], ":" + pa, ":" + pb);
      Cancel(":", pa, pb);
      Unambiguous(a.members[x[i]], b.members[y[i]], ta, tb);
      SameMembers(a, b, x, y, i + 1, s, t);
    }
  }

  /** Two values print to the same text exactly when they are equal up to member order. */
  lemma {:induction false} PrintInjective(a: Value, b: Value)
    requires NumbersWritten(a) && NumbersWritten(b)
    ensures Print(a) == Print(b) <==> a == b
  {
    hide Print;
    if Print(a) == Print(b) {
      Unambiguous(a, b, "", "");
    }
  }

  // ---------- the printer at work ----------

  /** Collects the names of an object, in whatever order it keeps them. */
  method NamesIn(m: map<string, Value>) returns (names: seq<string>)
    ensures NoRepeats(names) && forall k :: k in names <==> k in m
  {
    var left := m.Keys;
    names := [];
    while left != {}
      invariant left <= m.Keys && NoRepeats(names) && forall k :: k in names <==> k in m.Keys - left
      decreases |left|
    {
      var k :| k in left;
      assert k !in names;
      left := left - {k};
      names := names + [k];
    }
  }

  lemma {:induction false} SortedListing(names: seq<string>, keys: set<string>)
    requires NoRepeats(names) && forall k :: k in names <==> k in keys
    ensures SortNames(names) == SortedKeys(keys) && forall k :: k in SortNames(names) <==> k in keys
  {
    Sorting.SortDistinct(StrLe, (k: string) => k, names);
    SortNamesSorts(names);
    SortedIsUnique(SortNames(names), keys);
  }

  /** Appends the canonical text of a value. */
  method WriteCanonicalJson(v: Value, output: string) returns (out: string)
    ensures out == output + Print(v)
    decreases v, 1
  {
    hide Quoted, PrintItems, PrintMembers, SortNames, SortedNames, NoRepeats;
    match v
    case Null => out := output + "null";
    case Bool(flag) => out := output + if flag then "true" else "false";
    case Num(text) => out := output + text;
    case Str(text) => out := output + Quoted(text);
    case Arr(_) =>
      out := WriteItems(v, output + "[");
      out := out + "]";
    case Obj(m) =>
      var names := NamesIn(m);
      SortedListing(names, m.Keys);
      out := WriteMembers(v, SortNames(names), output + "{");
      out := out + "}";
  }

  method WriteItems(v: Value, output: string) returns (out: string)
    requires v.Arr?
    ensures out == output + PrintItems(v, 0)
    decreases v, 0
  {
    hide Print, PrintItems;
    out := output;
    for i := 0 to |v.items|
      invariant out + PrintItems(v, i) == output + PrintItems(v, 0)
    {
      OneItemWritten(v, i, out);
      if i > 0 {
        out := out + ",";
      }
      out := WriteCanonicalJson(v.items[i], out);
    }
    AllItemsWritten(v);
  }

  lemma AllItemsWritten(v: Value)
    requires v.Arr?
    ensures PrintItems(v, |v.items|) == ""
  {
  }

  lemma OneItemWritten(v: Value, i: nat, out: string)
    requires v.Arr? && i < |v.items|
    ensures out + PrintItems(v, i) == (if i > 0 then out + "," else out) + Print(v.items[i]) + PrintItems(v, i + 1)
  {
    hide Print;
    var value, rest := Print(v.items[i]), PrintItems(v, i + 1);
    assert PrintItems(v, i) == Comma(i) + (value + rest);
    hide PrintItems;
    assert out + (Comma(i) + (value + rest)) == out + Comma(i) + value + rest;
    assert out + "" == out;
  }

  method WriteMembers(v: Value, names: seq<string>, output: string) returns (out: string)
    requires v.Obj? && forall k :: k in names ==> k in v.members
    ensures out == output + PrintMembers(v, names, 0)
    decreases v, 0
  {
    hide Print, Quoted, PrintMembers;
    out := output;
    for i := 0 to |names|
      invariant out + PrintMembers(v, names, i) == output + PrintMembers(v, names, 0)
    {
      OneMemberWritten(v, names, i, out);
      out := out + Comma(i);
      out := out + Quoted(names[i]) + ":";
      out := WriteCanonicalJson(v.members[names[i]], out);
    }
    AllMembersWritten(v, names);
  }

  lemma AllMembersWritten(v: Value, names: seq<string>)
    requires v.Obj? && forall k :: k in names ==> k in v.members
    ensures PrintMembers(v, names, |names|) == ""
  {
  }

  lemma OneMemberWritten(v: Value, names: seq<string>, i: nat, out: string)
    requires v.Obj? && i < |names| && forall k :: k in names ==> k in v.members
    ensures out + PrintMembers(v, names, i) ==
            out + Comma(i) + Quoted(names[i]) + ":" + Print(v.members[names[i]]) + PrintMembers(v, names, i + 1)
  {
    hide Print, Quoted, Comma;
    var value, rest := Print(v.members[names[i]]), PrintMembers(v, names, i + 1);
    assert PrintMembers(v, names, i) == Comma(i) + (Quoted(names[i]) + (":" + (value + rest)));
    assert out + (Comma(i) + (Quoted(names[i]) + (":" + (value + rest)))) ==
           out + Comma(i) + Quoted(names[i]) + ":" + value + rest;
  }
}
