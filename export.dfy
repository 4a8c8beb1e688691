/** `exportSessionsCSV`: a header record, then one record per session,
    oldest first, rendered with `csvEscape`. The two date renderings
    (`toISOString`, `toLocaleString`) depend on the time zone and locale and
    are parameters. */
module SessionsExport {
  import opened Wrappers
  import opened Seqs
  import opened Text
  import opened Library
  import opened Csv

  const HEADER: seq<string> :=
    ["at_iso", "at_local", "book_id", "book_title", "book_author", "minutes", "pages_read", "mood_after"]

  /** `x ?? ''` for an optional number. */
  function NumberOrBlank(v: Option<int>): string
  {
    if v.Some? then Decimal(v.value) else ""
  }

  /** The record of session `s` given `byId.get(s.bookId)`: a missing book
      leaves title and author blank. */
  function RecordOf(b: Option<Book>, s: Session, iso: int -> string, local: int -> string): seq<string>
  {
    [iso(s.at), local(s.at), s.bookId,
     if b.Some? then b.value.title else "",
     if b.Some? then b.value.author else "",
     Decimal(s.minutes), NumberOrBlank(s.pagesRead), s.moodAfter]
  }

  /** The record of one session. The book is looked up in `new Map(books.map(b
      => [b.id, b]))`, so of several books with one id the last one counts. */
  function SessionRecord(books: seq<Book>, s: Session, iso: int -> string, local: int -> string): (r: seq<string>)
    ensures |r| == |HEADER|
    ensures r[0] == iso(s.at) && r[1] == local(s.at) && r[2] == s.bookId
    ensures r[3] == (if HasId(books, s.bookId) then LastWithId(books, s.bookId).value.title else "")
    ensures r[4] == (if HasId(books, s.bookId) then LastWithId(books, s.bookId).value.author else "")
    ensures r[5] == Decimal(s.minutes) && r[6] == NumberOrBlank(s.pagesRead) && r[7] == s.moodAfter
  {
    RecordOf(LastWithId(books, s.bookId), s, iso, local)
  }

  /** The records of `[...sessions].reverse()`: the history is kept newest
      first, the export lists it oldest first. */
  function SessionRecords(books: seq<Book>, sessions: seq<Session>, iso: int -> string, local: int -> string): (r: seq<seq<string>>)
    ensures |r| == |sessions|
    ensures forall k :: 0 <= k < |r| ==> r[k] == SessionRecord(books, sessions[|sessions| - 1 - k], iso, local)
  {
    var list := Reverse(sessions);
    seq(|list|, k requires 0 <= k < |list| => SessionRecord(books, list[k], iso, local))
  }

  /** The text of the CSV file. */
  function SessionsCsv(books: seq<Book>, sessions: seq<Session>, iso: int -> string, local: int -> string): string
  {
    Render([HEADER] + SessionRecords(books, sessions, iso, local))
  }

  /** The file reads back, as RFC 4180 CSV, into the header followed by one
      record per session, the oldest session first. */
  lemma ExportReadsBack(books: seq<Book>, sessions: seq<Session>, iso: int -> string, local: int -> string)
    ensures var recs := ParseCsv(SessionsCsv(books, sessions, iso, local));
      recs.Some? && |recs.value| == |sessions| + 1 && recs.value[0] == HEADER
      && forall k :: 1 <= k <= |sessions| ==>
           recs.value[k] == SessionRecord(books, sessions[|sessions| - k], iso, local)
  {
    var rows := [HEADER] + SessionRecords(books, sessions, iso, local);
    ParseRender(rows);
  }

  lemma {:induction false} EscapeAllPlain(fields: seq<string>)
    requires forall i :: 0 <= i < |fields| ==> !NeedsQuoting(fields[i])
    ensures EscapeAll(fields) == fields
  {
    if fields != [] {
      EscapeAllPlain(fields[1..]);
    }
  }

  /** A name made of lower-case letters and `_` needs no quoting. */
  lemma LowerNamePlain(s: string)
    requires forall j :: 0 <= j < |s| ==> 'a' <= s[j] <= 'z' || s[j] == '_'
    ensures !NeedsQuoting(s)
  {
  }

  /** No header name needs quoting. */
  lemma HeaderPlain()
    ensures forall i :: 0 <= i < |HEADER| ==> !NeedsQuoting(HEADER[i])
  {
    forall i | 0 <= i < |HEADER|
      ensures !NeedsQuoting(HEADER[i])
    {
      var w := HEADER[i];
      assert forall j :: 0 <= j < |w| ==> 'a' <= w[j] <= 'z' || w[j] == '_';
      LowerNamePlain(w);
    }
  }

  /** With an empty history the file is the header line alone. */
  lemma ExportOfNoSessions(books: seq<Book>, iso: int -> string, local: int -> string)
    ensures SessionsCsv(books, [], iso, local) == Join(HEADER, ",") + "\n"
  {
    assert [HEADER] + SessionRecords(books, [], iso, local) == [HEADER];
    RenderHeaderOnly(HEADER);
    HeaderPlain();
    EscapeAllPlain(HEADER);
  }
}
