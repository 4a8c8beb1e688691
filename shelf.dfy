/** The shelf search of `renderShelf`: a status selector and a free-text
    query matched, case-insensitively, against title, author and notes. */
module ShelfFilter {
  import opened Library
  import opened Text
  import opened Seqs

  /** `[b.title, b.author, b.notes].filter(Boolean).join(' ')`. */
  function Haystack(b: Book): string
  {
    Join(Filter([b.title, b.author, b.notes], (x: string) => x != ""), " ")
  }

  /** The predicate `renderShelf` filters the shelf with, for the filter
      state `q` and `status`. */
  predicate Matches(b: Book, q: string, status: string)
  {
    var query := Lower(Trim(q));
    var wanted := if status == "" then "all" else status;
    if wanted != "all" && b.status != wanted then false
    else if query == "" then true
    else Contains(Lower(Haystack(b)), query)
  }

  /** The books the shelf lists, in shelf order. */
  function Shown(books: seq<Book>, q: string, status: string): seq<Book>
  {
    Filter(books, (b: Book) => Matches(b, q, status))
  }

  /** With a blank query and the status "all" the whole shelf is listed. */
  lemma NoFilterShowsAll(books: seq<Book>, q: string, status: string)
    requires forall i :: 0 <= i < |q| ==> IsJsSpace(q[i])
    requires status == "" || status == "all"
    ensures Shown(books, q, status) == books
  {
    TrimSpec(q);
    FilterKeepsAll(books, (b: Book) => Matches(b, q, status));
  }

  /** A status selection lists only books of that status. */
  lemma ShownHaveStatus(books: seq<Book>, q: string, status: string)
    requires status != "" && status != "all"
    ensures forall b :: b in Shown(books, q, status) ==> b.status == status
  {
    var r := Shown(books, q, status);
    forall b | b in r ensures b.status == status {
      var i :| 0 <= i < |r| && r[i] == b;
    }
  }

  lemma {:induction false} JoinHasPart(parts: seq<string>, sep: string, i: int)
    requires 0 <= i < |parts|
    ensures exists pre, post :: Join(parts, sep) == pre + parts[i] + post
  {
    if |parts| == 1 {
      assert Join(parts, sep) == "" + parts[0] + "";
    } else if i == 0 {
      assert Join(parts, sep) == "" + parts[0] + (sep + Join(parts[1..], sep));
    } else {
      JoinHasPart(parts[1..], sep, i - 1);
      var pre, post :| Join(parts[1..], sep) == pre + parts[1..][i - 1] + post;
      assert Join(parts, sep) == (parts[0] + sep + pre) + parts[i] + post;
    }
  }

  /** A query found (case-insensitively) in the title, the author or the
      notes of a book of the selected status lists that book. */
  lemma FieldHitMatches(b: Book, q: string, status: string, field: string)
    requires field == b.title || field == b.author || field == b.notes
    requires Contains(Lower(field), Lower(Trim(q)))
    requires status == "" || status == "all" || b.status == status
    ensures Matches(b, q, status)
  {
    var query := Lower(Trim(q));
    if query != "" {
      var parts := [b.title, b.author, b.notes];
      var kept := Filter(parts, (x: string) => x != "");
      assert field != "";
      assert field in parts;
      var k :| 0 <= k < |parts| && parts[k] == field;
      assert field in kept;
      var i :| 0 <= i < |kept| && kept[i] == field;
      JoinHasPart(kept, " ", i);
      var pre, post :| Haystack(b) == pre + field + post;
      LowerConcat(pre + field, post);
      LowerConcat(pre, field);
      ContainsInContext(Lower(pre), Lower(field), Lower(post), query);
    }
  }
}
