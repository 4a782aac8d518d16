/** Rows of comma-separated values from mapping.rs, and a reader after section 2 of RFC 4180 with LF line ends. */
module Csv {
  import opened Json

  type Row = seq<string>

  predicate Special(c: char) {
    c == ',' || c == '"' || c == '\n' || c == '\r'
  }

  predicate NeedsQuotes(f: string) {
    f != "" && (Special(f[0]) || NeedsQuotes(f[1..]))
  }

  function Doubled(f: string): string {
    if f == "" then "" else (if f[0] == '"' then "\"\"" else [f[0]]) + Doubled(f[1..])
  }

  function PrintField(f: string): string {
    if NeedsQuotes(f) then "\"" + Doubled(f) + "\"" else f
  }

  function PrintFields(fields: Row, i: nat): string
    requires i <= |fields|
    decreases |fields| - i
  {
    if i == |fields| then "\n"
    else (if i > 0 then "," else "") + (PrintField(fields[i]) + PrintFields(fields, i + 1))
  }

  function PrintRow(fields: Row): string {
    PrintFields(fields, 0)
  }

  function PrintRows(rows: seq<Row>): string {
    if rows == [] then "" else PrintRow(rows[0]) + PrintRows(rows[1..])
  }

  // ---------- the reader ----------

  /** The rest of a quoted field: doubled quotes stand for one, a single one ends it. */
  function ReadQuoted(text: string): Option<(string, string)>
    ensures var r := ReadQuoted(text); r.Some? ==> |r.value.1| < |text|
    decreases |text|
  {
    if text == "" then None
    else if text[0] == '"' then
      if |text| > 1 && text[1] == '"' then
        match ReadQuoted(text[2..]) case None => None case Some((f, rest)) => Some(("\"" + f, rest))
      else Some(("", text[1..]))
    else
      match ReadQuoted(text[1..]) case None => None case Some((f, rest)) => Some(([text[0]] + f, rest))
  }

  function ReadPlain(text: string): (string, string)
    ensures var r := ReadPlain(text); |r.1| <= |text|
  {
    if text == "" || Special(text[0]) then ("", text)
    else
      var (f, rest) := ReadPlain(text[1..]);
      ([text[0]] + f, rest)
  }

  function ReadField(text: string): Option<(string, string)>
    ensures var r := ReadField(text); r.Some? ==> |r.value.1| <= |text|
  {
    if text != "" && text[0] == '"' then ReadQuoted(text[1..]) else Some(ReadPlain(text))
  }

  /** A record: fields with commas between, up to a line feed. */
  function ReadRow(text: string): Option<(Row, string)>
    ensures var r := ReadRow(text); r.Some? ==> r.value.0 != [] && |r.value.1| < |text|
    decreases |text|
  {
    match ReadField(text)
    case None => None
    case Some((f, rest)) =>
      if rest == "" then None
      else if rest[0] == '\n' then Some(([f], rest[1..]))
      else if rest[0] == ',' then
        match ReadRow(rest[1..]) case None => None case Some((more, after)) => Some(([f] + more, after))
      else None
  }

  function ReadRows(text: string): Option<seq<Row>>
    decreases |text|
  {
    if text == "" then Some([])
    else
      match ReadRow(text)
      case None => None
      case Some((row, rest)) =>
        match ReadRows(rest) case None => None case Some(rows) => Some([row] + rows)
  }

  // ---------- reading what was written ----------

  predicate Delimited(rest: string) {
    rest != "" && (rest[0] == ',' || rest[0] == '\n')
  }

  lemma {:induction false} ReadDoubled(f: string, rest: string)
    requires Delimited(rest)
    ensures ReadQuoted(Doubled(f) + "\"" + rest) == Some((f, rest))
  {
    var text := Doubled(f) + "\"" + rest;
    if f == "" {
      assert text == "\"" + rest;
      assert text[1..] == rest;
    } else {
      var tail := Doubled(f[1..]) + "\"" + rest;
      ReadDoubled(f[1..], rest);
      DoubledStep(f, rest);
      hide Doubled;
      if f[0] == '"' {
        QuotedPair(tail);
      } else {
        QuotedChar(f[0], tail);
      }
      assert f == [f[0]] + f[1..];
    }
  }

  lemma {:induction false} DoubledStep(f: string, rest: string)
    requires f != ""
    ensures Doubled(f) + "\"" + rest == (if f[0] == '"' then "\"\"" else [f[0]]) + (Doubled(f[1..]) + "\"" + rest)
  {
    var head, tail := if f[0] == '"' then "\"\"" else [f[0]], Doubled(f[1..]);
    assert Doubled(f) == head + tail;
    hide Doubled;
    assert head + tail + "\"" + rest == head + (tail + "\"" + rest);
  }

  /** Two quotes in a quoted field are read as one. */
  lemma {:induction false} QuotedPair(tail: string)
    requires ReadQuoted(tail).Some?
    ensures ReadQuoted("\"\"" + tail) == Some(("\"" + ReadQuoted(tail).value.0, ReadQuoted(tail).value.1))
  {
    var text := "\"\"" + tail;
    assert text[2..] == tail && text[0] == text[1] == '"';
  }

  lemma {:induction false} QuotedChar(c: char, tail: string)
    requires c != '"' && ReadQuoted(tail).Some?
    ensures ReadQuoted([c] + tail) == Some(([c] + ReadQuoted(tail).value.0, ReadQuoted(tail).value.1))
  {
    var text := [c] + tail;
    assert text[1..] == tail && text[0] == c;
  }

  lemma {:induction false} ReadUnquoted(f: string, rest: string)
    requires Delimited(rest) && !NeedsQuotes(f)
    ensures ReadPlain(f + rest) == (f, rest) && (f != "" ==> f[0] != '"')
  {
    if f == "" {
      assert f + rest == rest;
    } else {
      ReadUnquoted(f[1..], rest);
      assert (f + rest)[1..] == f[1..] + rest;
      assert f == [f[0]] + f[1..];
    }
  }

  lemma {:induction false} ReadWrittenField(f: string, rest: string)
    requires Delimited(rest)
    ensures ReadField(PrintField(f) + rest) == Some((f, rest))
  {
    hide NeedsQuotes, Doubled, ReadQuoted, ReadPlain;
    var text := PrintField(f) + rest;
    if NeedsQuotes(f) {
      ReadDoubled(f, rest);
      assert text[0] == '"';
      assert text[1..] == Doubled(f) + "\"" + rest;
    } else {
      ReadUnquoted(f, rest);
      assert text[0] == if f == "" then rest[0] else f[0];
    }
  }

  lemma RowStep(text: string, f: string, rest: string)
    requires ReadField(text) == Some((f, rest)) && Delimited(rest)
    ensures rest[0] == '\n' ==> ReadRow(text) == Some(([f], rest[1..]))
    ensures rest[0] == ',' && ReadRow(rest[1..]).Some? ==>
              ReadRow(text) == Some(([f] + ReadRow(rest[1..]).value.0, ReadRow(rest[1..]).value.1))
  {
    hide ReadField;
  }

  lemma Regroup(comma: string, field: string, rest: string, after: string)
    ensures comma + (field + rest) + after == comma + (field + (rest + after))
  {
    assert comma + (field + rest) + after == comma + ((field + rest) + after);
    assert (field + rest) + after == field + (rest + after);
  }

  lemma {:induction false} FieldsFrom(fields: Row, i: nat, after: string)
    requires i <= |fields|
    ensures PrintFields(fields, i) != ""
    ensures i == |fields| ==> PrintFields(fields, i) + after == "\n" + after
    ensures i < |fields| ==>
              PrintFields(fields, i) + after ==
              (if i > 0 then "," else "") + (PrintField(fields[i]) + (PrintFields(fields, i + 1) + after))
    decreases |fields| - i
  {
    if i < |fields| {
      FieldsFrom(fields, i + 1, after);
      var comma, field, rest := if i > 0 then "," else "", PrintField(fields[i]), PrintFields(fields, i + 1);
      hide PrintField;
      assert PrintFields(fields, i) == comma + (field + rest);
      hide PrintFields;
      Regroup(comma, field, rest, after);
    }
  }

  lemma {:induction false} ReadWrittenFields(fields: Row, i: nat, after: string)
    requires i < |fields|
    ensures ReadRow(PrintField(fields[i]) + (PrintFields(fields, i + 1) + after)) == Some((fields[i..], after))
    decreases |fields| - i
  {
    hide PrintField, ReadField, ReadRow, PrintFields;
    var rest := PrintFields(fields, i + 1) + after;
    FieldsFrom(fields, i + 1, after);
    ReadWrittenField(fields[i], rest);
    RowStep(PrintField(fields[i]) + rest, fields[i], rest);
    if i + 1 == |fields| {
      assert rest[1..] == after;
      assert fields[i..] == [fields[i]];
    } else {
      ReadWrittenFields(fields, i + 1, after);
      assert rest[1..] == PrintField(fields[i + 1]) + (PrintFields(fields, i + 2) + after);
      assert fields[i..] == [fields[i]] + fields[i + 1..];
    }
  }

  lemma {:induction false} ReadWrittenRow(fields: Row, after: string)
    requires fields != []
    ensures ReadRow(PrintRow(fields) + after) == Some((fields, after)) && PrintRow(fields) != ""
  {
    hide PrintField, ReadRow, PrintFields;
    FieldsFrom(fields, 0, after);
    ReadWrittenFields(fields, 0, after);
    var text := PrintField(fields[0]) + (PrintFields(fields, 1) + after);
    assert "" + text == text;
    assert fields[0..] == fields;
  }

  lemma {:induction false} ReadOnlyFullRows(text: string)
    ensures ReadRows(text).Some? ==> forall r :: r in ReadRows(text).value ==> r != []
    decreases |text|
  {
    if text != "" && ReadRow(text).Some? {
      ReadOnlyFullRows(ReadRow(text).value.1);
    }
  }

  /** The reader recovers rows written one after another exactly when none of them is empty. */
  lemma {:induction false} ReadWrittenRows(rows: seq<Row>)
    ensures ReadRows(PrintRows(rows)) == Some(rows) <==> forall r :: r in rows ==> r != []
  {
    if forall r :: r in rows ==> r != [] {
      if rows != [] {
        assert rows[0] in rows;
        hide ReadRow, PrintRow;
        ReadWrittenRow(rows[0], PrintRows(rows[1..]));
        ReadWrittenRows(rows[1..]);
        assert rows == [rows[0]] + rows[1..];
        var rest := PrintRows(rows[1..]);
        var text := PrintRow(rows[0]) + rest;
        assert text == PrintRows(rows) && text != "";
        assert forall r :: r in rows[1..] ==> r in rows;
        assert ReadRows(rest) == Some(rows[1..]);
        assert ReadRow(text) == Some((rows[0], rest));
      }
    } else {
      ReadOnlyFullRows(PrintRows(rows));
    }
  }

  /** So different lists of non-empty rows are written differently. */
  lemma {:induction false} PrintRowsInjective(a: seq<Row>, b: seq<Row>)
    requires (forall r :: r in a ==> r != []) && (forall r :: r in b ==> r != [])
    ensures PrintRows(a) == PrintRows(b) ==> a == b
  {
    ReadWrittenRows(a);
    ReadWrittenRows(b);
  }

  lemma {:induction false} QuotesAre(f: string)
    ensures NeedsQuotes(f) <==> ',' in f || '"' in f || '\n' in f || '\r' in f
  {
    if f != "" {
      QuotesAre(f[1..]);
      assert f == [f[0]] + f[1..];
    }
  }

  /** A field is written as it stands exactly when it has no comma, no quote and no line end; otherwise in quotes. */
  lemma {:induction false} QuotedIff(f: string)
    ensures PrintField(f) == f <==> !(',' in f || '"' in f || '\n' in f || '\r' in f)
    ensures PrintField(f) != f ==> PrintField(f)[0] == '"' && PrintField(f)[|PrintField(f)| - 1] == '"' && |PrintField(f)| >= |f| + 2
  {
    QuotesAre(f);
    DoubledLonger(f);
    hide NeedsQuotes, Doubled;
  }

  lemma {:induction false} DoubledLonger(f: string)
    ensures |Doubled(f)| >= |f|
  {
    if f != "" {
      DoubledLonger(f[1..]);
    }
  }

  // ---------- the writer at work ----------

  function SplitQuotes(f: string): (parts: seq<string>)
    ensures parts != []
  {
    if f == "" then [""]
    else if f[0] == '"' then [""] + SplitQuotes(f[1..])
    else
      var rest := SplitQuotes(f[1..]);
      [[f[0]] + rest[0]] + rest[1..]
  }

  function JoinDoubled(parts: seq<string>): string {
    if parts == [] then "" else if |parts| == 1 then parts[0] else parts[0] + "\"\"" + JoinDoubled(parts[1..])
  }

  lemma {:induction false} JoinSplit(f: string)
    ensures JoinDoubled(SplitQuotes(f)) == Doubled(f)
  {
    if f != "" {
      JoinSplit(f[1..]);
      var rest := SplitQuotes(f[1..]);
      if f[0] == '"' {
        assert SplitQuotes(f)[1..] == rest;
      } else {
        var parts := SplitQuotes(f);
        assert parts[1..] == rest[1..];
        assert |rest| > 1 ==> [f[0]] + rest[0] + "\"\"" + JoinDoubled(rest[1..]) == [f[0]] + JoinDoubled(rest);
      }
    }
  }

  lemma {:induction false} JoinMore(parts: seq<string>, i: nat)
    requires i < |parts|
    ensures JoinDoubled(parts[..i + 1]) == JoinDoubled(parts[..i]) + (if i > 0 then "\"\"" else "") + parts[i]
  {
    if i > 0 {
      assert parts[..i + 1][1..] == parts[1..][..i] && parts[..i][1..] == parts[1..][..i - 1];
      JoinMore(parts[1..], i - 1);
    }
  }

  method WriteQuoted(writer: string, field: string) returns (out: string)
    ensures out == writer + "\"" + Doubled(field) + "\""
  {
    out := writer + "\"";
    ghost var start := out;
    var firstPart := true;
    var parts := SplitQuotes(field);
    for i := 0 to |parts|
      invariant firstPart == (i == 0) && out == start + JoinDoubled(parts[..i])
    {
      JoinMore(parts, i);
      if !firstPart {
        out := out + "\"\"";
      }
      out := out + parts[i];
      firstPart := false;
    }
    assert parts[..|parts|] == parts;
    JoinSplit(field);
    out := out + "\"";
  }

  /** Appends one row and a line feed. */
  method WriteCsvRow(writer: string, fields: Row) returns (out: string)
    ensures out == writer + PrintRow(fields)
  {
    hide Doubled, NeedsQuotes, PrintFields;
    out := writer;
    var first := true;
    for i := 0 to |fields|
      invariant first == (i == 0) && out + PrintFields(fields, i) == writer + PrintRow(fields)
    {
      OneFieldWritten(fields, i, out);
      if !first {
        out := out + ",";
      }
      if NeedsQuotes(fields[i]) {
        out := WriteQuoted(out, fields[i]);
      } else {
        out := out + fields[i];
      }
      first := false;
    }
    AllFieldsWritten(fields);
    out := out + "\n";
  }

  lemma AllFieldsWritten(fields: Row)
    ensures PrintFields(fields, |fields|) == "\n"
  {
  }

  lemma OneFieldWritten(fields: Row, i: nat, out: string)
    requires i < |fields|
    ensures out + PrintFields(fields, i) ==
            if NeedsQuotes(fields[i]) then
              (if i > 0 then out + "," else out) + "\"" + Doubled(fields[i]) + "\"" + PrintFields(fields, i + 1)
            else (if i > 0 then out + "," else out) + fields[i] + PrintFields(fields, i + 1)
  {
    hide Doubled, NeedsQuotes;
    var rest, field := PrintFields(fields, i + 1), PrintField(fields[i]);
    assert PrintFields(fields, i) == (if i > 0 then "," else "") + (field + rest);
    hide PrintFields;
    assert out + ("," + (field + rest)) == out + "," + field + rest;
    assert out + ("" + (field + rest)) == out + field + rest;
    if NeedsQuotes(fields[i]) {
      var before := if i > 0 then out + "," else out;
      assert before + ("\"" + Doubled(fields[i]) + "\"") + rest == before + "\"" + Doubled(fields[i]) + "\"" + rest;
    }
  }
}
