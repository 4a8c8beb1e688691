/** CSV text as the sessions export writes it: `csvEscape` quotes a field the
    way section 2 of RFC 4180 asks, fields are joined by `,`, records by
    `\n`, and the text ends with `\n`. A reader for that format is the
    partner that shows the writer loses nothing. */
module Csv {
  import opened Wrappers
  import opened Seqs

  /** The field holds a character that cannot stand in a bare field. */
  predicate NeedsQuoting(s: string)
  {
    '"' in s || ',' in s || '\n' in s || '\r' in s
  }

  /** `s.replace(/"/g, '""')`. */
  function DoubleQuotes(s: string): string
  {
    if s == [] then ""
    else (if s[0] == '"' then "\"\"" else [s[0]]) + DoubleQuotes(s[1..])
  }

  /** `csvEscape(v)`: `null`/`undefined` give the empty field, a field
      without `"`, `,`, CR or LF is kept as it is, any other is put in
      double quotes with each inner `"` doubled. */
  function CsvEscape(v: Option<string>): (r: string)
    ensures v.None? ==> r == ""
    ensures v.Some? && !NeedsQuoting(v.value) ==> r == v.value
    ensures v.Some? && NeedsQuoting(v.value) ==> |r| >= 2 && r[0] == '"' && r[|r| - 1] == '"'
  {
    match v
    case None => ""
    case Some(s) => if NeedsQuoting(s) then "\"" + DoubleQuotes(s) + "\"" else s
  }

  function EscapeAll(fields: seq<string>): (r: seq<string>)
    ensures |r| == |fields|
    ensures forall i :: 0 <= i < |r| ==> r[i] == CsvEscape(Some(fields[i]))
  {
    if fields == [] then [] else [CsvEscape(Some(fields[0]))] + EscapeAll(fields[1..])
  }

  /** `r.map(csvEscape).join(',')`. */
  function Row(fields: seq<string>): string
  {
    Join(EscapeAll(fields), ",")
  }

  function Rows(rows: seq<seq<string>>): (r: seq<string>)
    ensures |r| == |rows|
    ensures forall i :: 0 <= i < |r| ==> r[i] == Row(rows[i])
  {
    if rows == [] then [] else [Row(rows[0])] + Rows(rows[1..])
  }

  /** `rows.map(...).join('\n') + '\n'`. */
  function Render(rows: seq<seq<string>>): string
  {
    Join(Rows(rows), "\n") + "\n"
  }

  // ---- a reader for the same format ----

  /** The rest of a quoted field after its opening quote: the content, with
      `""` read as `"`, and what follows the closing quote. */
  function ReadQuoted(s: string): (r: Option<(string, string)>)
    ensures r.Some? ==> |r.value.1| < |s|
    decreases |s|
  {
    if s == [] then None
    else if s[0] == '"' then
      if |s| >= 2 && s[1] == '"' then
        match ReadQuoted(s[2..])
        case None => None
        case Some((f, rest)) => Some(("\"" + f, rest))
      else Some(("", s[1..]))
    else
      match ReadQuoted(s[1..])
      case None => None
      case Some((f, rest)) => Some(([s[0]] + f, rest))
  }

  /** A bare field: everything up to the next `,` or `\n`. */
  function ReadBare(s: string): (r: (string, string))
    ensures |r.1| <= |s|
  {
    if s == [] || s[0] == ',' || s[0] == '\n' then ("", s)
    else
      var (f, rest) := ReadBare(s[1..]);
      ([s[0]] + f, rest)
  }

  function ReadField(s: string): (r: Option<(string, string)>)
    ensures r.Some? ==> |r.value.1| <= |s|
  {
    if |s| > 0 && s[0] == '"' then ReadQuoted(s[1..]) else Some(ReadBare(s))
  }

  /** One record: fields separated by `,`, ended by `\n`. */
  function ReadRecord(s: string): (r: Option<(seq<string>, string)>)
    ensures r.Some? ==> |r.value.1| < |s|
    decreases |s|
  {
    match ReadField(s)
    case None => None
    case Some((f, rest)) =>
      if |rest| > 0 && rest[0] == ',' then
        match ReadRecord(rest[1..])
        case None => None
        case Some((fs, tail)) => Some(([f] + fs, tail))
      else if |rest| > 0 && rest[0] == '\n' then Some(([f], rest[1..]))
      else None
  }

  /** All records of a CSV text. */
  function ParseCsv(s: string): Option<seq<seq<string>>>
    decreases |s|
  {
    if s == [] then Some([])
    else
      match ReadRecord(s)
      case None => None
      case Some((record, rest)) =>
        match ParseCsv(rest)
        case None => None
        case Some(records) => Some([record] + records)
  }

  // ---- round trip ----

  lemma {:induction false} ReadQuotedOfDoubled(f: string, t: string)
    requires t == [] || t[0] != '"'
    ensures ReadQuoted(DoubleQuotes(f) + "\"" + t) == Some((f, t))
  {
    var s := DoubleQuotes(f) + "\"" + t;
    if f == [] {
      assert s == "\"" + t;
      assert s[1..] == t;
    } else if f[0] == '"' {
      assert s == "\"\"" + (DoubleQuotes(f[1..]) + "\"" + t);
      ReadQuotedOfDoubled(f[1..], t);
      assert "\"" + f[1..] == f;
    } else {
      assert s == [f[0]] + (DoubleQuotes(f[1..]) + "\"" + t);
      ReadQuotedOfDoubled(f[1..], t);
      assert [f[0]] + f[1..] == f;
    }
  }

  lemma {:induction false} ReadBareOfPlain(f: string, t: string)
    requires ',' !in f && '\n' !in f
    requires t == [] || t[0] == ',' || t[0] == '\n'
    ensures ReadBare(f + t) == (f, t)
  {
    if f == [] {
      assert f + t == t;
    } else {
      assert (f + t)[0] == f[0] && (f + t)[1..] == f[1..] + t;
      ReadBareOfPlain(f[1..], t);
      assert [f[0]] + f[1..] == f;
    }
  }

  /** An escaped field reads back as the original field, whatever follows a
      field separator or a record separator. */
  lemma ReadFieldOfEscaped(f: string, t: string)
    requires t == [] || t[0] == ',' || t[0] == '\n'
    ensures ReadField(CsvEscape(Some(f)) + t) == Some((f, t))
  {
    var s := CsvEscape(Some(f)) + t;
    if NeedsQuoting(f) {
      assert s == "\"" + (DoubleQuotes(f) + "\"" + t);
      assert s[1..] == DoubleQuotes(f) + "\"" + t;
      ReadQuotedOfDoubled(f, t);
    } else {
      assert s == f + t;
      if f != [] { assert s[0] == f[0]; }
      ReadBareOfPlain(f, t);
    }
  }

  /** A rendered row, ended by `\n`, reads back as its fields. */
  lemma {:induction false} ReadRecordOfRow(fields: seq<string>, t: string)
    requires |fields| >= 1
    ensures ReadRecord(Row(fields) + "\n" + t) == Some((fields, t))
  {
    var e := EscapeAll(fields);
    var s := Row(fields) + "\n" + t;
    if |fields| == 1 {
      assert Row(fields) == CsvEscape(Some(fields[0]));
      assert s == CsvEscape(Some(fields[0])) + ("\n" + t);
      ReadFieldOfEscaped(fields[0], "\n" + t);
      assert ("\n" + t)[1..] == t;
      assert [fields[0]] == fields;
    } else {
      assert e[1..] == EscapeAll(fields[1..]);
      assert Row(fields) == e[0] + "," + Row(fields[1..]);
      var tail := Row(fields[1..]) + "\n" + t;
      assert s == CsvEscape(Some(fields[0])) + ("," + tail);
      ReadFieldOfEscaped(fields[0], "," + tail);
      assert ("," + tail)[1..] == tail;
      ReadRecordOfRow(fields[1..], t);
      assert [fields[0]] + fields[1..] == fields;
    }
  }

  /** The CSV text of a non-empty table whose rows are non-empty reads back
      as exactly that table (no field or record boundary is lost or added). */
  lemma {:induction false} ParseRender(rows: seq<seq<string>>)
    requires |rows| >= 1
    requires forall i :: 0 <= i < |rows| ==> |rows[i]| >= 1
    ensures ParseCsv(Render(rows)) == Some(rows)
  {
    var s := Render(rows);
    if |rows| == 1 {
      assert s == Row(rows[0]) + "\n" + "";
      ReadRecordOfRow(rows[0], "");
      assert ParseCsv(s) == Some([rows[0]] + []);
      assert [rows[0]] + [] == rows;
    } else {
      var rest := Render(rows[1..]);
      assert Rows(rows)[1..] == Rows(rows[1..]);
      assert s == Row(rows[0]) + "\n" + rest;
      ReadRecordOfRow(rows[0], rest);
      ParseRender(rows[1..]);
      assert [rows[0]] + rows[1..] == rows;
    }
  }

  /** A table holding only its header renders as that one line and `\n`. */
  lemma RenderHeaderOnly(header: seq<string>)
    ensures Render([header]) == Row(header) + "\n"
  {
  }
}
