/** Books and reading sessions, and the pure part of the store operations:
    `findIndex`/`find` lookups, the shelf after an upsert, and the shelf and
    history after a delete. */
module Library {
  import opened Wrappers
  import opened Seqs

  /** The status a book has while it is being read. */
  const READING := "reading"

  /** A book on the shelf. `status` is kept as the text the source stores
      ('reading', 'to-read', 'finished'); `author` and `notes` are "" when
      absent. */
  datatype Book = Book(id: string, title: string, author: string, pages: Option<int>,
                       status: string, notes: string, updatedAt: int)

  /** One logged reading session; `at` is epoch milliseconds. */
  datatype Session = Session(id: string, at: int, bookId: string, minutes: int,
                             pagesRead: Option<int>, moodAfter: string)

  /** JavaScript truthiness of an optional string (`null` and "" are falsy). */
  predicate Truthy(v: Option<string>)
  {
    v.Some? && v.value != ""
  }

  predicate HasId(books: seq<Book>, id: string)
  {
    exists j :: 0 <= j < |books| && books[j].id == id
  }

  /** `books.findIndex(b => b.id === id)`: the first position holding `id`,
      or -1. */
  function IndexOf(books: seq<Book>, id: string): (i: int)
    ensures -1 <= i < |books|
    ensures i >= 0 ==> books[i].id == id
    ensures forall j :: 0 <= j < |books| && (i < 0 || j < i) ==> books[j].id != id
  {
    if books == [] then -1
    else if books[0].id == id then 0
    else
      var k := IndexOf(books[1..], id);
      if k < 0 then -1 else k + 1
  }

  /** `getBook(id)`: `books.find(b => b.id === id) || null`. */
  function FindBook(books: seq<Book>, id: string): (r: Option<Book>)
    ensures r.None? <==> !HasId(books, id)
    ensures r.Some? ==> r.value.id == id && r.value in books
    ensures r.Some? ==> exists i :: 0 <= i < |books| && books[i] == r.value
                          && forall j :: 0 <= j < i ==> books[j].id != id
  {
    var i := IndexOf(books, id);
    if i < 0 then None else Some(books[i])
  }

  // ---- upsertBook ----

  /** The shelf after `upsertBook(book)`: the first book with the same id is
      replaced where it stands, otherwise the book goes to the front. */
  function Upserted(books: seq<Book>, book: Book): (r: seq<Book>)
    ensures HasId(books, book.id) ==>
      |r| == |books| && r[IndexOf(books, book.id)] == book
      && forall j :: 0 <= j < |books| && j != IndexOf(books, book.id) ==> r[j] == books[j]
    ensures !HasId(books, book.id) ==> |r| == |books| + 1 && r[0] == book && r[1..] == books
  {
    var i := IndexOf(books, book.id);
    if i >= 0 then books[i := book] else [book] + books
  }

  /** After an upsert, looking the book's id up gives the new book, and
      every other id looks up what it looked up before. */
  lemma UpsertedLookup(books: seq<Book>, book: Book, id: string)
    ensures FindBook(Upserted(books, book), id) ==
            if id == book.id then Some(book) else FindBook(books, id)
  {
    var r := Upserted(books, book);
    var i := IndexOf(books, book.id);
    if i >= 0 {
      assert forall j :: 0 <= j < |r| ==> r[j].id == books[j].id;
      IndexOfSameIds(books, r, id);
    } else {
      if id != book.id {
        assert r[1..] == books;
        assert IndexOf(r, id) == (if IndexOf(books, id) < 0 then -1 else IndexOf(books, id) + 1);
      }
    }
  }

  /** `IndexOf` only looks at ids. */
  lemma {:induction false} IndexOfSameIds(a: seq<Book>, b: seq<Book>, id: string)
    requires |a| == |b|
    requires forall j :: 0 <= j < |a| ==> a[j].id == b[j].id
    ensures IndexOf(a, id) == IndexOf(b, id)
  {
    if a != [] {
      IndexOfSameIds(a[1..], b[1..], id);
    }
  }

  predicate DistinctIds(books: seq<Book>)
  {
    forall i, j :: 0 <= i < j < |books| ==> books[i].id != books[j].id
  }

  function Ids(books: seq<Book>): set<string>
  {
    set b | b in books :: b.id
  }

  /** An upsert adds the book's id to the set of ids and keeps ids distinct. */
  lemma UpsertedIds(books: seq<Book>, book: Book)
    ensures Ids(Upserted(books, book)) == Ids(books) + {book.id}
    ensures DistinctIds(books) ==> DistinctIds(Upserted(books, book))
  {
    var r := Upserted(books, book);
    var i := IndexOf(books, book.id);
    if i >= 0 {
      forall x | x in Ids(r) ensures x in Ids(books) + {book.id} {
        var b :| b in r && b.id == x;
        var j :| 0 <= j < |r| && r[j] == b;
        if j != i { assert books[j] in books; }
      }
      forall x | x in Ids(books) + {book.id} ensures x in Ids(r) {
        if x == book.id {
          assert r[i] in r;
        } else {
          var b :| b in books && b.id == x;
          var j :| 0 <= j < |books| && books[j] == b;
          assert j != i;
          assert r[j] in r;
        }
      }
    } else {
      assert forall b :: b in r <==> b == book || b in books;
    }
  }

  lemma IdsCons(books: seq<Book>)
    requires books != []
    ensures Ids(books) == {books[0].id} + Ids(books[1..])
  {
    var rest := books[1..];
    forall x | x in Ids(books) ensures x in {books[0].id} + Ids(rest) {
      var b :| b in books && b.id == x;
      var j :| 0 <= j < |books| && books[j] == b;
      if j > 0 { assert rest[j - 1] == b; }
    }
    forall x | x in {books[0].id} + Ids(rest) ensures x in Ids(books) {
      if x != books[0].id {
        var b :| b in rest && b.id == x;
        var j :| 0 <= j < |rest| && rest[j] == b;
        assert books[j + 1] == b;
      }
    }
  }

  lemma HeadIdNotInRest(books: seq<Book>)
    requires books != [] && DistinctIds(books)
    ensures books[0].id !in Ids(books[1..])
  {
  }

  /** With distinct ids the shelf holds exactly one book per id. */
  lemma {:induction false} DistinctCount(books: seq<Book>)
    requires DistinctIds(books)
    ensures |Ids(books)| == |books|
  {
    if books != [] {
      var rest := books[1..];
      assert DistinctIds(rest);
      DistinctCount(rest);
      IdsCons(books);
      HeadIdNotInRest(books);
    }
  }

  /** A run of upserts, in call order. */
  function UpsertAll(books: seq<Book>, xs: seq<Book>): seq<Book>
    decreases |xs|
  {
    if xs == [] then books else UpsertAll(Upserted(books, xs[0]), xs[1..])
  }

  /** The last book in `xs` with the given id (what `new Map(xs.map(b =>
      [b.id, b])).get(id)` yields). */
  function LastWithId(xs: seq<Book>, id: string): (r: Option<Book>)
    ensures r.Some? ==> r.value.id == id
    ensures r.Some? ==> exists j :: 0 <= j < |xs| && xs[j] == r.value && forall k :: j < k < |xs| ==> xs[k].id != id
    ensures r.None? <==> !HasId(xs, id)
  {
    if xs == [] then None
    else
      var later := LastWithId(xs[1..], id);
      if later.Some? then later
      else if xs[0].id == id then Some(xs[0])
      else None
  }

  /** Adding a book at the end: it is now the last with its id. */
  lemma {:induction false} LastWithIdSnoc(xs: seq<Book>, b: Book, id: string)
    ensures LastWithId(xs + [b], id) == if b.id == id then Some(b) else LastWithId(xs, id)
  {
    if xs != [] {
      assert (xs + [b])[1..] == xs[1..] + [b];
      LastWithIdSnoc(xs[1..], b, id);
    } else {
      assert [b][1..] == [];
    }
  }

  /** Upserting a run of books, starting from an empty shelf, leaves one
      book per distinct id and each id holds its most recent upsert. */
  lemma UpsertRun(xs: seq<Book>)
    ensures |UpsertAll([], xs)| == |Ids(xs)|
    ensures forall id :: FindBook(UpsertAll([], xs), id) == LastWithId(xs, id)
  {
    UpsertAllFacts([], xs);
    DistinctCount(UpsertAll([], xs));
    forall id ensures FindBook(UpsertAll([], xs), id) == LastWithId(xs, id) {
      UpsertAllLookup([], xs, id);
    }
  }

  lemma {:induction false} UpsertAllFacts(books: seq<Book>, xs: seq<Book>)
    requires DistinctIds(books)
    ensures DistinctIds(UpsertAll(books, xs))
    ensures Ids(UpsertAll(books, xs)) == Ids(books) + Ids(xs)
    decreases |xs|
  {
    if xs != [] {
      UpsertedIds(books, xs[0]);
      UpsertAllFacts(Upserted(books, xs[0]), xs[1..]);
      IdsCons(xs);
    }
  }

  lemma {:induction false} UpsertAllLookup(books: seq<Book>, xs: seq<Book>, id: string)
    ensures FindBook(UpsertAll(books, xs), id) ==
            if LastWithId(xs, id).Some? then LastWithId(xs, id) else FindBook(books, id)
    decreases |xs|
  {
    if xs != [] {
      UpsertAllLookup(Upserted(books, xs[0]), xs[1..], id);
      UpsertedLookup(books, xs[0], id);
    }
  }

  // ---- deleteBook ----

  /** `books.filter(b => b.id !== id)`. */
  function BooksWithout(books: seq<Book>, id: string): seq<Book>
  {
    Filter(books, (b: Book) => b.id != id)
  }

  /** `sessions.filter(s => s.bookId !== id)`. */
  function SessionsWithout(sessions: seq<Session>, id: string): seq<Session>
  {
    Filter(sessions, (s: Session) => s.bookId != id)
  }

  /** After a delete no book carries the id, and every other book is still
      there, in its original relative order. */
  lemma BooksWithoutSpec(books: seq<Book>, id: string, a: seq<Book>, b: seq<Book>)
    requires books == a + b
    ensures !HasId(BooksWithout(books, id), id)
    ensures forall x :: x in books && x.id != id ==> x in BooksWithout(books, id)
    ensures BooksWithout(books, id) == BooksWithout(a, id) + BooksWithout(b, id)
  {
    FilterConcat(a, b, (x: Book) => x.id != id);
  }

  /** The cascade: no session of the deleted book is left, every other
      session is kept, in its original relative order. */
  lemma SessionsWithoutSpec(sessions: seq<Session>, id: string, a: seq<Session>, b: seq<Session>)
    requires sessions == a + b
    ensures forall s :: s in SessionsWithout(sessions, id) ==> s.bookId != id
    ensures forall s :: s in sessions && s.bookId != id ==> s in SessionsWithout(sessions, id)
    ensures SessionsWithout(sessions, id) == SessionsWithout(a, id) + SessionsWithout(b, id)
  {
    var r := SessionsWithout(sessions, id);
    forall s | s in r ensures s.bookId != id {
      var i :| 0 <= i < |r| && r[i] == s;
    }
    FilterConcat(a, b, (x: Session) => x.bookId != id);
  }

  /** After a delete, the deleted id finds nothing and every other id finds
      the same book as before. */
  lemma {:induction false} BooksWithoutLookup(books: seq<Book>, id: string, x: string)
    ensures FindBook(BooksWithout(books, id), x) == if x == id then None else FindBook(books, x)
  {
    if books != [] {
      BooksWithoutLookup(books[1..], id, x);
      var r := BooksWithout(books, id);
      var rest := BooksWithout(books[1..], id);
      if books[0].id != id {
        assert r == [books[0]] + rest;
        assert r[1..] == rest;
      } else {
        assert r == rest;
      }
    }
  }

  // ---- the active book ----

  /** The book `logSession` resolves: `nowId ? getBook(nowId) : null`. */
  function ActiveBook(books: seq<Book>, nowId: Option<string>): (r: Option<Book>)
    ensures r.Some? ==> Truthy(nowId) && r.value.id == nowId.value && r.value in books
    ensures Truthy(nowId) && HasId(books, nowId.value) ==> r.Some?
  {
    if Truthy(nowId) then FindBook(books, nowId.value) else None
  }

  /** `deleteBook` clears the pointer exactly when it named the deleted id. */
  function NowAfterDelete(nowId: Option<string>, id: string): Option<string>
  {
    if nowId == Some(id) then None else nowId
  }

  /** After a delete the active book is what it was, unless it was the
      deleted book, in which case there is none. */
  lemma ActiveAfterDelete(books: seq<Book>, nowId: Option<string>, id: string)
    ensures ActiveBook(BooksWithout(books, id), NowAfterDelete(nowId, id)) ==
            if nowId == Some(id) then None else ActiveBook(books, nowId)
  {
    if Truthy(nowId) && nowId != Some(id) {
      BooksWithoutLookup(books, id, nowId.value);
    }
  }

  /** `books.findIndex(b => b.status === 'reading')`. */
  function ReadingIndex(books: seq<Book>): (i: int)
    ensures -1 <= i < |books|
    ensures i >= 0 ==> books[i].status == READING
    ensures forall j :: 0 <= j < |books| && (i < 0 || j < i) ==> books[j].status != READING
  {
    if books == [] then -1
    else if books[0].status == READING then 0
    else
      var k := ReadingIndex(books[1..]);
      if k < 0 then -1 else k + 1
  }

  /** `books.find(b => b.status === 'reading')`. */
  function FirstReading(books: seq<Book>): (r: Option<Book>)
    ensures r.Some? ==> r.value in books && r.value.status == READING
    ensures r.None? ==> forall j :: 0 <= j < |books| ==> books[j].status != READING
    ensures r.Some? ==> exists i :: 0 <= i < |books| && books[i] == r.value
                          && forall j :: 0 <= j < i ==> books[j].status != READING
  {
    var i := ReadingIndex(books);
    if i < 0 then None else Some(books[i])
  }
}
