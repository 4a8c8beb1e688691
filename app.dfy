/** The app's global `state` and the operations that change it: the shelf
    and session store, the timer, the daily prompt, persistence and the
    sessions export. `localStorage` is the field `slot`; ids (`uid()`) and
    clock readings (`Date.now()`, `performance.now()`) are supplied by the
    caller. */
module App {
  import opened Wrappers
  import opened Seqs
  import opened Library
  import opened Timing
  import opened Persist
  import opened Prompts
  import opened Csv
  import opened SessionsExport

  /** Why `logSession` refused: no "Now reading" book resolves. */
  datatype LogError = NoActiveBook

  class Nest {
    var books: seq<Book>
    var sessions: seq<Session>
    /** The "Now reading" book id. */
    var nowId: Option<string>
    var prompt: Option<string>
    const timer: Timer
    /** The storage slot under the key 'sloth-reading-nest:v1'. */
    var slot: Stored

    ghost predicate Valid()
      reads this, timer
    {
      timer.Valid()
    }

    /** The persisted part of the state. */
    function Data(): AppData
      reads this, timer
    {
      AppData(books, sessions, nowId, prompt, timer.totalSec)
    }

    /** The page as it opens, before the boot sequence, with `stored` in the
        storage slot. */
    constructor (stored: Stored)
      ensures Valid() && fresh(timer)
      ensures books == [] && sessions == [] && nowId == None && prompt == None && slot == stored
      ensures timer.totalSec == DEFAULT_SEC && timer.leftSec == DEFAULT_SEC
      ensures !timer.running && timer.startedAt == None
    {
      books, sessions, nowId, prompt := [], [], None, None;
      timer := new Timer();
      slot := stored;
    }

    /** `save()`. */
    method Save()
      requires Valid()
      modifies this`slot
      ensures Valid()
      ensures slot == Parsed(Persist.Save(Data()))
    {
      slot := Parsed(Persist.Save(AppData(books, sessions, nowId, prompt, timer.totalSec)));
    }

    /** `load()`: every field is taken from the stored object independently,
        the timer length only when `timerMinutes` is set; nothing is saved. */
    method Load()
      requires Valid()
      modifies this`books, this`sessions, this`nowId, this`prompt, timer
      ensures Valid()
      ensures Data() == Persist.Load(slot, old(Data()))
      ensures timer.leftSec == if slot.Parsed? && LoadedTimerSec(slot.doc.timerMinutes).Some?
                               then timer.totalSec else old(timer.leftSec)
      ensures timer.running == old(timer.running) && timer.startedAt == old(timer.startedAt)
      ensures timer.clock == old(timer.clock)
    {
      if !slot.Parsed? {
        return;
      }
      var data := slot.doc;
      books := if data.books.Some? then data.books.value else [];
      sessions := if data.sessions.Some? then data.sessions.value else [];
      nowId := OrNull(data.nowId);
      prompt := OrNull(data.prompt);
      if data.timerMinutes.Some? && data.timerMinutes.value != 0 {
        var sec := Clamp(data.timerMinutes.value, MIN_MINUTES, MAX_MINUTES) * 60;
        timer.Adopt(sec);
      }
    }

    /** `setNow(id)`. */
    method SetNow(id: Option<string>)
      requires Valid()
      modifies this`nowId, this`slot
      ensures Valid()
      ensures nowId == id
      ensures slot == Parsed(Persist.Save(Data()))
    {
      nowId := id;
      Save();
    }

    /** `upsertBook(book)`: replace in place or put at the front; a reading
        book becomes the active one when none is set. */
    method UpsertBook(book: Book)
      requires Valid()
      modifies this`books, this`nowId, this`slot
      ensures Valid()
      ensures books == Upserted(old(books), book)
      ensures nowId == if !Truthy(old(nowId)) && book.status == READING then Some(book.id) else old(nowId)
      ensures slot == Parsed(Persist.Save(Data()))
    {
      var i := IndexOf(books, book.id);
      if i >= 0 {
        books := books[i := book];
      } else {
        books := [book] + books;
      }
      if !Truthy(nowId) && book.status == READING {
        nowId := Some(book.id);
      }
      Save();
    }

    /** `deleteBook(id)`: the book, its sessions and, if it was active, the
        active pointer go. */
    method DeleteBook(id: string)
      requires Valid()
      modifies this`books, this`sessions, this`nowId, this`slot
      ensures Valid()
      ensures books == BooksWithout(old(books), id)
      ensures sessions == SessionsWithout(old(sessions), id)
      ensures nowId == NowAfterDelete(old(nowId), id)
      ensures slot == Parsed(Persist.Save(Data()))
    {
      books := Filter(books, (b: Book) => b.id != id);
      sessions := Filter(sessions, (s: Session) => s.bookId != id);
      if nowId == Some(id) {
        nowId := None;
      }
      Save();
    }

    /** `logSession(pagesRead, moodAfter)` with the new entry's id and epoch
        time: guarded by the active book, and the minutes come from the
        configured length, not from the time left. */
    method LogSession(id: string, at: int, pagesRead: Option<int>, moodAfter: string)
      returns (r: Result<Session, LogError>)
      requires Valid()
      modifies this`sessions, this`slot
      ensures Valid()
      ensures r.Err? <==> ActiveBook(books, nowId).None?
      ensures r.Err? ==> sessions == old(sessions) && slot == old(slot)
      ensures r.Ok? ==>
        sessions == [r.value] + old(sessions) && slot == Parsed(Persist.Save(Data()))
        && r.value == Session(id, at, nowId.value, MinutesOf(timer.totalSec), pagesRead, moodAfter)
        && MIN_MINUTES <= r.value.minutes <= MAX_MINUTES && r.value.minutes * 60 == timer.totalSec
    {
      var nowBook := if Truthy(nowId) then FindBook(books, nowId.value) else None;
      if nowBook.None? {
        return Err(NoActiveBook);
      }
      var minutes := RoundDiv(timer.totalSec, 60);
      MinutesOfValid(timer.totalSec);
      var entry := Session(id, at, nowBook.value.id, minutes, pagesRead, moodAfter);
      sessions := [entry] + sessions;
      Save();
      return Ok(entry);
    }

    /** `clearSessions()`, `confirmed` being the answer to its dialog. */
    method ClearSessions(confirmed: bool)
      requires Valid()
      modifies this`sessions, this`slot
      ensures Valid()
      ensures !confirmed ==> sessions == old(sessions) && slot == old(slot)
      ensures confirmed ==> sessions == [] && slot == Parsed(Persist.Save(Data()))
    {
      if !confirmed {
        return;
      }
      sessions := [];
      Save();
    }

    /** `setTimerMinutes(min)`. */
    method SetTimerMinutes(min: int)
      requires Valid()
      modifies timer, this`slot
      ensures Valid()
      ensures timer.totalSec == ClampedSeconds(min) && timer.leftSec == timer.totalSec
      ensures !timer.running && timer.startedAt == None
      ensures slot == Parsed(Persist.Save(Data()))
    {
      timer.SetMinutes(min);
      Save();
    }

    /** `resetTimer()`. */
    method ResetTimer()
      requires Valid()
      modifies timer, this`slot
      ensures Valid()
      ensures timer.totalSec == old(timer.totalSec) && timer.leftSec == timer.totalSec
      ensures !timer.running && timer.startedAt == None
      ensures slot == Parsed(Persist.Save(Data()))
    {
      timer.Reset();
      Save();
    }

    /** `newPrompt(fresh)` as intended (see `Prompts.NewPromptCorrected`):
        `random` is what `Math.random()` draws and `daily` is the first word
        of `seededRand` for today's seed (`Prompts.SeededDraw` computes it
        from the date with the two generators). */
    method NewPrompt(pickAnew: bool, random: real, daily: bv32)
      requires Valid() && 0.0 <= random < 1.0
      modifies this`prompt, this`slot
      ensures Valid()
      ensures prompt == Some(NewPromptCorrected(pickAnew, random, daily))
      ensures prompt.value in PROMPTS
      ensures slot == Parsed(Persist.Save(Data()))
    {
      var idx := if pickAnew then DrawIndex(random) else PromptIndex(daily);
      SetPrompt(PROMPTS[idx]);
    }

    /** The end of `newPrompt`: `state.prompt = ...; save()`. */
    method SetPrompt(p: string)
      requires Valid()
      modifies this`prompt, this`slot
      ensures Valid()
      ensures prompt == Some(p)
      ensures slot == Parsed(Persist.Save(Data()))
    {
      prompt := Some(p);
      Save();
    }

    /** `importDataFromFile` once the file has been read: a refused file
        changes nothing; an accepted one replaces the persisted state and is
        saved, and the `render()` that follows fills an empty prompt with the
        prompt of the day (`renderPrompt` calls `newPrompt(false)`), which
        saves again. `daily` is the first word of `seededRand` for today. */
    method Import(file: ImportFile, daily: bv32) returns (err: Option<ImportError>)
      requires Valid()
      modifies this`books, this`sessions, this`nowId, this`prompt, this`slot, timer
      ensures Valid()
      ensures err.Some? <==> Persist.Import(file, old(Data())).Err?
      ensures err.Some? ==> err.value == Persist.Import(file, old(Data())).error
      ensures err.Some? ==> Data() == old(Data()) && slot == old(slot) && timer.leftSec == old(timer.leftSec)
      ensures err.None? ==>
        var imported := Persist.Import(file, old(Data())).value;
        books == imported.books && sessions == imported.sessions && nowId == imported.nowId
        && timer.totalSec == imported.totalSec
        && prompt == (if Truthy(imported.prompt) then imported.prompt else Some(PROMPTS[PromptIndex(daily)]))
        && slot == Parsed(Persist.Save(Data()))
        && timer.leftSec == if ImportedTimerSec(file.payload.data.value.timerMinutes).Some?
                            then timer.totalSec else old(timer.leftSec)
      ensures timer.running == old(timer.running) && timer.startedAt == old(timer.startedAt)
    {
      err := Restore(file);
      if err.None? && !Truthy(prompt) {
        NewPrompt(false, 0.0, daily);
      }
    }

    /** The `try` block of the import handler up to its `save()`: a refused
        file changes nothing; an accepted one replaces the persisted state (a
        run in progress keeps running) and is saved. */
    method Restore(file: ImportFile) returns (err: Option<ImportError>)
      requires Valid()
      modifies this`books, this`sessions, this`nowId, this`prompt, this`slot, timer
      ensures Valid()
      ensures err.Some? <==> Persist.Import(file, old(Data())).Err?
      ensures err.Some? ==> err.value == Persist.Import(file, old(Data())).error
      ensures err.Some? ==> Data() == old(Data()) && slot == old(slot) && timer.leftSec == old(timer.leftSec)
      ensures err.None? ==> Data() == Persist.Import(file, old(Data())).value && slot == Parsed(Persist.Save(Data()))
      ensures err.None? ==> timer.leftSec == if ImportedTimerSec(file.payload.data.value.timerMinutes).Some?
                                            then timer.totalSec else old(timer.leftSec)
      ensures timer.running == old(timer.running) && timer.startedAt == old(timer.startedAt)
    {
      if file.BadJson? {
        return Some(SyntaxError);
      }
      var payload := file.payload;
      if payload.app != Some(APP_ID) || payload.data.None? {
        return Some(NotAnExport);
      }
      var d := payload.data.value;
      books := if d.books.Some? then d.books.value else [];
      sessions := if d.sessions.Some? then d.sessions.value else [];
      nowId := OrNull(d.nowId);
      prompt := OrNull(d.prompt);
      var sec := ImportedTimerSec(d.timerMinutes);
      if sec.Some? {
        timer.Adopt(sec.value);
      }
      Save();
      return None;
    }

    /** `exportSessionsCSV()`: the CSV text of the history, oldest session
        first; `iso` and `local` render an epoch time as `toISOString` and
        `toLocaleString` do. */
    method ExportSessionsCsv(iso: int -> string, local: int -> string) returns (csv: string)
      ensures csv == SessionsCsv(books, sessions, iso, local)
    {
      var byId := BookMap();
      var rows: seq<seq<string>> := [HEADER];
      var list := Reverse(sessions);
      ghost var all := SessionRecords(books, sessions, iso, local);
      var i := 0;
      while i < |list|
        invariant 0 <= i <= |list|
        invariant rows == [HEADER] + all[..i]
      {
        var s := list[i];
        var b := if s.bookId in byId then Some(byId[s.bookId]) else None;
        assert b == LastWithId(books, s.bookId);
        assert s == sessions[|sessions| - 1 - i];
        assert all[i] == SessionRecord(books, s, iso, local);
        assert all[i] == RecordOf(b, s, iso, local);
        assert all[..i + 1] == all[..i] + [all[i]];
        rows := rows + [RecordOf(b, s, iso, local)];
        i := i + 1;
      }
      assert all[..i] == all;
      csv := Render(rows);
    }

    /** `new Map(state.books.map(b => [b.id, b]))`: every id on the shelf,
        mapped to the last book that has it. */
    method BookMap() returns (byId: map<string, Book>)
      ensures forall id :: id in byId <==> HasId(books, id)
      ensures forall id :: id in byId ==> LastWithId(books, id) == Some(byId[id])
    {
      byId := map[];
      var j := 0;
      while j < |books|
        invariant 0 <= j <= |books|
        invariant forall id :: id in byId <==> HasId(books[..j], id)
        invariant forall id :: id in byId ==> LastWithId(books[..j], id) == Some(byId[id])
      {
        assert books[..j + 1] == books[..j] + [books[j]];
        forall id {
          LastWithIdSnoc(books[..j], books[j], id);
        }
        byId := byId[books[j].id := books[j]];
        j := j + 1;
      }
      assert books[..j] == books;
    }

    /** The boot fallback: with no active book set, the first book being
        read becomes the active one (nothing is saved). */
    method PickFirstReading()
      requires Valid()
      modifies this`nowId
      ensures Valid()
      ensures nowId == if Truthy(old(nowId)) then old(nowId)
                       else if FirstReading(books).Some? then Some(FirstReading(books).value.id)
                       else old(nowId)
    {
      if !Truthy(nowId) {
        var firstReading := FirstReading(books);
        if firstReading.Some? {
          nowId := Some(firstReading.value.id);
        }
      }
    }

    /** The boot sequence: `load()`, the daily prompt if none was stored
        (which saves), then the first reading book as the active one if none
        is set (not saved until the next save). `daily` is the first word of
        `seededRand` for today's seed. */
    method Boot(daily: bv32)
      requires Valid()
      modifies this`books, this`sessions, this`nowId, this`prompt, this`slot, timer
      ensures Valid()
      ensures var loaded := Persist.Load(old(slot), old(Data()));
        books == loaded.books && sessions == loaded.sessions && timer.totalSec == loaded.totalSec
        && prompt == (if Truthy(loaded.prompt) then loaded.prompt else Some(PROMPTS[PromptIndex(daily)]))
        && nowId == (if Truthy(loaded.nowId) then loaded.nowId
                     else if FirstReading(books).Some? then Some(FirstReading(books).value.id) else loaded.nowId)
        && slot == (if Truthy(loaded.prompt) then old(slot)
                    else Parsed(Persist.Save(AppData(books, sessions, loaded.nowId, prompt, loaded.totalSec))))
      ensures timer.leftSec == if old(slot).Parsed? && LoadedTimerSec(old(slot).doc.timerMinutes).Some?
                               then timer.totalSec else old(timer.leftSec)
      ensures timer.running == old(timer.running) && timer.startedAt == old(timer.startedAt)
    {
      Load();
      if !Truthy(prompt) {
        NewPrompt(false, 0.0, daily);
      }
      PickFirstReading();
    }
  }
}
