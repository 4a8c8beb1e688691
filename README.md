# Sloth Reading Nest — a verified model of its core

Sloth Reading Nest is an offline reading tracker that runs in the browser. Its
whole domain logic lives in `app.js`, built around one global `state`:

- a shelf of books;
- a history of reading sessions, newest first;
- the id of the book being read now (`nowId`);
- the daily prompt;
- a countdown timer.

The state is stored as one JSON document in `localStorage`. It can also be
exported and imported as a JSON file, and the history can be exported as CSV.

The model has one Dafny module per concern:

- `Library`: books, sessions, lookups, and the pure shelf updates behind
  `upsertBook` and `deleteBook`.
- `Timing`: `clamp`, `Math.round` on whole numbers, and the timer as a
  class `Timer` with the operations `setTimerMinutes`, `startTimer`, `tick`,
  `pauseTimer` and `resetTimer`.
- `Persist`: the stored document, `save`, `load`, and the accept/reject part
  of `importDataFromFile`. All three are functions over an abstract parsed
  JSON document.
- `App`: class `Nest` is the global `state`. Its methods are the store
  operations, which change the state in place and write the storage slot.
  The class also holds the boot sequence.
- `Csv` and `SessionsExport`:
  - `csvEscape` and the CSV text that `exportSessionsCSV` builds;
  - an RFC 4180 reader that serves as the writer's partner.
- `Stats`: `computeStats`.
- `ShelfFilter`: the shelf filter of `renderShelf`.
- `Text`: `safeInt`, `fmtHM`, `escapeHtml`, `trim` and `toLowerCase` on ASCII.
- `Prompts`:
  - the prompt list;
  - `seededRand` (xmur3 and sfc32 on `bv32`);
  - the index `newPrompt` picks.
- `Seqs` and `Wrappers`: generic helpers.

Conventions:

- Clock readings (`performance.now()`, `Date.now()`) are integer milliseconds
  that the caller passes in.
- `Math.round(n / d)` is `(2n + d) / (2d)` on integers, which rounds halves up
  like JavaScript does.
- JavaScript truthiness of an optional string is `Truthy`: present and not
  empty.

## Model

| member | source | states |
|---|---|---|
| Timing.Clamp | app.js:36 | the result is the point of [lo, hi] nearest to n; it is n itself when n is inside |
| Timing.RoundDiv | app.js:75 | `Math.round(n/d)`: the result is within half a unit of n/d, and halves round up |
| Timing.RoundDivExact | app.js:75 | rounding an exact multiple k*d gives k back |
| Timing.ClampedSeconds | app.js:297 | `clamp(m,5,180)*60` always lies in [300, 10800] and is whole minutes; for m in range it is m*60 |
| Timing.MinutesOfValid | app.js:75 | for a valid total, `Math.round(totalSec/60)` is the exact minute count, in [5, 180] |
| Timing.MinutesOf | app.js:75 | `Math.round(totalSec/60)` (its definition; MinutesOfValid states it) |
| Timing.StartedAtFor | app.js:327 | `now - (totalSec - leftSec)*1000` (its definition; ResumeExact states it) |
| Timing.TickLeft | app.js:309-310 | the seconds left are never negative and never exceed totalSec once the clock has passed startedAt |
| Timing.ResumeExact | app.js:325-328 | a tick at the instant of a (re)start gives back exactly the seconds that were left |
| Timing.TickAfterWholeSeconds | app.js:306-310 | k whole seconds after a start the display shows k seconds fewer |
| Timing.Timer.constructor | app.js:15-21 | the timer starts idle with 20 minutes total and left |
| Timing.Timer.SetMinutes | app.js:296-301 | totalSec = leftSec = clamp(min,5,180)*60; the timer stops and startedAt is cleared |
| Timing.Timer.Start | app.js:325-328 | no-op when running; otherwise running, with startedAt = now - (totalSec - leftSec)*1000 and the seconds kept |
| Timing.Timer.Tick | app.js:306-315 | no-op when idle; otherwise leftSec = max(0, round(totalSec - elapsed)); reaching 0 stops the timer and clears startedAt; totalSec never changes |
| Timing.Timer.Adopt | app.js:64-67 | the load/import timer update: total and left set to the new length, run state kept |
| Timing.Timer.Pause | app.js:335-337 | running becomes false; totalSec, leftSec and startedAt are untouched |
| Timing.Timer.Reset | app.js:345-350 | leftSec = totalSec with totalSec kept; the timer stops and startedAt is cleared |
| Timing.PauseResumeScenario | app.js:306-337 | a ten-minute run paused after 30 s shows 570 s; resumed later and paused 10 s after that, it shows 560 s, with no drift from the pause |
| Timing.ExpiryScenario | app.js:306-319 | a twenty-minute run ticked 1199.6 s after its start shows 0 s left, reports expiry and stops |
| Library.IndexOf | app.js:153 | `findIndex`: -1 or the first index holding the id; no earlier book has it |
| Library.FindBook | app.js:144 | `getBook`: None exactly when no book has the id, else the FIRST shelf book with that id (no earlier book has it) |
| Library.Upserted | app.js:152-155 | an existing id is replaced at its index with the length unchanged and every other slot kept; otherwise the book is prepended |
| Library.UpsertedLookup | app.js:152-155 | after an upsert the book's id finds the new book, and every other id finds what it found before |
| Library.UpsertedIds | app.js:152-155 | the ids after an upsert are the old ids plus the book's id; distinct ids stay distinct |
| Library.UpsertRun | app.js:152-155 | a run of upserts onto an empty shelf holds one book per id, namely the last one given |
| Library.UpsertAllFacts | app.js:152-155 | a run of upserts keeps ids distinct, and its id set is the union |
| Library.UpsertAllLookup | app.js:152-155 | after a run of upserts an id finds the last upserted book with it, or what it found before |
| Library.LastWithId | app.js:200 | `new Map(books.map(b => [b.id, b])).get(id)`: the last book with the id; None exactly when none has it |
| Library.UpsertAll | app.js:152-155 | a run of upserts in call order (its definition) |
| Library.BooksWithout | app.js:162 | `books.filter(b => b.id !== id)` (its definition; BooksWithoutSpec states it) |
| Library.SessionsWithout | app.js:163 | `sessions.filter(s => s.bookId !== id)` (its definition; SessionsWithoutSpec states it) |
| Library.NowAfterDelete | app.js:164 | nowId becomes null exactly when it equals the deleted id (its definition) |
| Library.BooksWithoutSpec | app.js:162 | no book with the id remains, every other book is kept, and the order is kept (it distributes over concatenation) |
| Library.SessionsWithoutSpec | app.js:163 | the cascade: no session of the book remains, every other one is kept, and the order is kept |
| Library.BooksWithoutLookup | app.js:162 | after the delete the id finds nothing and every other id finds what it found before |
| Library.ActiveBook | app.js:378 | the active book resolves only for a truthy nowId held by a shelf book, and then always resolves |
| Library.ActiveAfterDelete | app.js:161-164 | after a delete the active book is gone if it was the deleted one, and unchanged otherwise |
| Library.ReadingIndex | app.js:1059 | the index `find` stops at: -1 or the first index of a reading book; no earlier book is reading |
| Library.FirstReading | app.js:1059 | `find(b => b.status === 'reading')`: the FIRST reading book of the shelf, or None when no book is reading |
| App.Nest.constructor | app.js:10-21 | the initial state is an empty shelf and history, no active book, no prompt, and a 20-minute idle timer |
| App.Nest.Save | app.js:74-84 | the slot holds exactly `Persist.Save` of the current state |
| App.Nest.Load | app.js:54-72 | the state becomes `Persist.Load` of the slot; leftSec becomes totalSec when a timer length was read and is kept otherwise; the run state is kept; nothing is saved |
| App.Nest.SetNow | app.js:146-149 | nowId is set and saved |
| App.Nest.UpsertBook | app.js:152-158 | shelf = Upserted(old shelf, book); nowId changes only from falsy to book.id, and only for a reading book; saved |
| App.Nest.DeleteBook | app.js:161-166 | shelf and history lose the book and its sessions; nowId is cleared exactly when it was the id; saved |
| App.Nest.LogSession | app.js:377-393 | fails, changing nothing, exactly when the active book does not resolve; otherwise prepends one session for that book whose minutes come from totalSec, not leftSec; saved |
| App.Nest.ClearSessions | app.js:398-402 | nothing changes unless confirmed; then the history is empty and saved |
| App.Nest.SetTimerMinutes | app.js:296-303 | the Timer.SetMinutes effect, then the state is saved |
| App.Nest.ResetTimer | app.js:345-355 | the Timer.Reset effect, then the state is saved |
| App.Nest.NewPrompt | app.js:136-142 | `newPrompt` as corrected (## Findings): the prompt becomes the daily entry, or the entry the random draw picks, and is saved |
| App.Nest.SetPrompt | app.js:139-141 | the prompt is set and saved |
| App.Nest.Import | app.js:240-264 | a refused file changes nothing and reports its error; an accepted one takes shelf, history, nowId and timer length from `Persist.Import`, sets leftSec to the new length when one was read, and ends with the imported prompt or, when that is falsy, today's prompt (the `render()` of app.js:258 runs `renderPrompt`, app.js:873-876); the final state is saved |
| App.Nest.Restore | app.js:244-257 | the handler's `try` block up to `save()`: refused files change nothing; an accepted one sets the state to `Persist.Import` of it, leftSec to the new length when one was read, and saves |
| App.Nest.ExportSessionsCsv | app.js:198-229 | the loop builds the rows, and the text equals SessionsCsv |
| App.Nest.BookMap | app.js:200 | the map holds exactly the shelf's ids, each mapped to the last book with that id |
| App.Nest.PickFirstReading | app.js:1058-1061 | a falsy nowId becomes the first reading book's id when there is one |
| App.Nest.Boot | app.js:1055-1061 | the loaded shelf, history and timer length; leftSec becomes the length when one was read and the run state is kept; the stored prompt or today's (then saved); nowId from the store or the first reading book |
| Persist.OrNull | app.js:62-63 | the or-null default of nowId and prompt: a truthy string is kept, and a missing or empty one gives null |
| Persist.OrEmpty | app.js:60-61 | `Array.isArray(x) ? x : []` for books and sessions: a present list is kept, a missing one gives the empty list |
| Persist.Save | app.js:74-84 | the document holds the shelf and history; for a valid length timerMinutes*60 = totalSec |
| Persist.LoadedTimerSec | app.js:64-67 | a timer length is read exactly when timerMinutes is present and non-zero, and it is clamped into the valid range |
| Persist.Load | app.js:54-72 | a missing, unparsable or non-object slot leaves the state alone; otherwise each field is defaulted on its own, and the timer length is the clamped timerMinutes when that is truthy and unchanged otherwise |
| Persist.LoadAfterSave | app.js:54-84 | loading what was saved restores the whole state |
| Persist.SaveAfterLoad | app.js:54-84 | saving what was loaded gives back any document the app could have written |
| Persist.Export | app.js:170-182 | the payload is tagged with the app id and carries the saved document |
| Persist.ImportedTimerSec | app.js:251-254 | `safeInt` then clamp: any length read is valid |
| Persist.ImportTimerAgreesWithLoad | app.js:251-254 | for an integer timerMinutes below 1e21 in magnitude, import and load pick the same timer length |
| Persist.Import | app.js:244-256 | refused exactly when the JSON is bad, the app tag is wrong, or data is missing; otherwise each field is defaulted as load does, and the timer length is the clamped `safeInt(timerMinutes)` when that is truthy and unchanged otherwise |
| Persist.ImportIsLoad | app.js:246-256 | an accepted import is a load of its data |
| Persist.ImportAfterExport | app.js:240-256 | importing an export of a well-formed state gives that state back |
| Csv.NeedsQuoting | app.js:194 | the test `/[",\n\r]/` (its definition) |
| Csv.DoubleQuotes | app.js:194 | `s.replace(/"/g, '""')` (its definition; ReadFieldOfEscaped proves it loses nothing) |
| Csv.CsvEscape | app.js:191-196 | null gives ""; a field without `"`, `,`, CR or LF is kept; any other is wrapped in double quotes |
| Csv.EscapeAll | app.js:229 | `r.map(csvEscape)`: field i of the result is csvEscape of field i |
| Csv.Row | app.js:229 | one record: the escaped fields joined by commas (its definition; ReadRecordOfRow reads it back) |
| Csv.Rows | app.js:229 | `rows.map(...)`: element i is the rendered record i |
| Csv.Render | app.js:229 | the records joined by LF plus a final LF (its definition; ParseRender reads it back) |
| Csv.ReadFieldOfEscaped | app.js:191-196 | an escaped field reads back as the original field under RFC 4180 |
| Csv.ReadRecordOfRow | app.js:229 | a joined row ended by LF reads back as its fields |
| Csv.ParseRender | app.js:229 | the CSV text of a table with non-empty rows reads back as exactly that table |
| Csv.RenderHeaderOnly | app.js:229 | a table holding only a header renders as that line and LF |
| SessionsExport.NumberOrBlank | app.js:223-224 | `x ?? ''` for a number (its definition) |
| SessionsExport.RecordOf | app.js:215-226 | the eight columns for a session and its looked-up book, blanks for a missing book (its definition; SessionRecord states each column) |
| SessionsExport.SessionRecord | app.js:215-226 | one record per session: dates, book id, the last book's title and author or blanks, minutes, pages, mood |
| SessionsExport.SessionRecords | app.js:213-214 | records come oldest first: record k is session n-1-k |
| SessionsExport.SessionsCsv | app.js:198-229 | the header row then the session records, rendered (its definition; ExportReadsBack reads it back) |
| SessionsExport.ExportReadsBack | app.js:198-229 | the file reads back as the header followed by one record per session, oldest first |
| SessionsExport.HeaderPlain | app.js:202-211 | no header name needs quoting |
| SessionsExport.ExportOfNoSessions | app.js:198-229 | with an empty history the file is the header line alone |
| Stats.SumMinutes | app.js:736 | `reduce((a,s) => a + s.minutes, 0)` (its definition) |
| Stats.LastWeek | app.js:736 | the sessions with `now - at < 7*864e5`, in order (its definition, a Filter) |
| Stats.SameDay | app.js:737 | the sessions whose day equals today's, in order (its definition, a Filter) |
| Stats.ComputeStats | app.js:734-739 | sessionCount is the number of sessions; for non-negative minutes, min7 and minToday lie between 0 and the total |
| Stats.FilteredSumBound | app.js:736-737 | the minutes of any filtered part of the history are at most the total |
| Stats.StatsAfterLog | app.js:734-739 | logging a session now adds its minutes to both sums and one to the count |
| Stats.StatsExample | app.js:734-739 | 10+15+5 minutes today and 20 minutes ten days ago give 30 this week, 30 today and four sessions |
| Stats.OldSessionOnly | app.js:734-739 | a single session from ten days ago, on another day, counts as a session but adds no minutes to the week or to today |
| ShelfFilter.Haystack | app.js:791 | the non-empty fields among title, author and notes, joined by spaces (its definition) |
| ShelfFilter.Matches | app.js:786-793 | the filter callback: status check first, a blank query lets the book through, otherwise the lowered haystack must contain the lowered, trimmed query (its definition) |
| ShelfFilter.Shown | app.js:788-793 | the shelf filtered by Matches, in order (its definition) |
| ShelfFilter.NoFilterShowsAll | app.js:786-793 | a blank query with status "all" shows the whole shelf in order |
| ShelfFilter.ShownHaveStatus | app.js:786-790 | with a status chosen, every book shown has that status |
| ShelfFilter.FieldHitMatches | app.js:786-793 | a query found, case-insensitively, in the title, author or notes of a book of the chosen status lists that book |
| Text.SafeInt | app.js:49-52 | `parseInt` in base 10 of the trimmed text, with NaN as null: ParseSigned of Trim(v) (its definition) |
| Text.ParseSigned | app.js:50 | an optional sign, then the longest run of digits, read in base 10; no digit gives NaN (its definition) |
| Text.Decimal | app.js:46 | `String(n)` for an integer: a minus sign for negatives, then the digits (its definition) |
| Text.Trim | app.js:50 | `trim()`: the text without leading and trailing JavaScript whitespace (its definition; TrimSpec states it) |
| Text.PadStart2 | app.js:46 | `padStart(2, '0')` (its definition) |
| Text.FmtHM | app.js:43-47 | minutes, a colon, then seconds, each padded to two digits (its definition; FmtHMRoundTrip and FmtHMShape state it) |
| Text.Lower | app.js:786 | `toLowerCase`, on ASCII letters only (its definition; see ## Left out) |
| Text.Contains | app.js:792 | `hay.includes(q)`: q occurs at some position (its definition) |
| Text.SafeIntOfDecimal | app.js:49-52 | `safeInt(String(n)) == n` for every integer written without an exponent, i.e. below 1e21 in magnitude |
| Text.SafeIntOfBlank | app.js:49-52 | a blank or all-whitespace string parses to null |
| Text.TrimSpec | app.js:50 | trim returns a slice of the input whose cut-off prefix and suffix are all whitespace; it is empty exactly for all-whitespace input, and otherwise starts and ends on non-whitespace |
| Text.LowerConcat | app.js:791 | lower-casing commutes with concatenation |
| Text.ContainsInContext | app.js:791-792 | a query found in one field is found in the joined haystack |
| Text.JsRem | app.js:45 | JavaScript `%`: a = b*trunc(a/b) + r, with r of the dividend's sign and smaller than the divisor |
| Text.TruncDiv | app.js:45 | the truncated quotient that goes with `%` (its definition; JsRem's contract relates the two) |
| Text.JsRemOdd | app.js:45 | negating the dividend negates the remainder |
| Text.FmtHMRoundTrip | app.js:43-47 | for non-negative seconds the "mm:ss" display reads back as the same number of seconds |
| Text.FmtHMShape | app.js:43-47 | below 100 minutes the display is five characters: two digits, a colon, two digits |
| Text.EscapeChar | app.js:880-882 | the replacement for one character: itself exactly when it is not one of `&<>"'`, otherwise an entity from `&` to `;`; no `<`, `>`, `"` or `'` in any replacement |
| Text.EscapeHtml | app.js:879-883 | no `<`, `>`, `"` or `'` survives, and the text never gets shorter |
| Text.EscapeHtmlRoundTrip | app.js:879-883 | unescaping the five entities gives back the original text |
| Prompts.Utf16 | app.js:94-96 | `charCodeAt` sees 16-bit code units, at least one per character |
| Prompts.Utf16RoundTrip | app.js:95-96 | the UTF-16 code units decode back to the string |
| Prompts.Utf16OfBmp | app.js:95-96 | for characters below U+10000 the code units are the characters |
| Prompts.Xmur3.constructor | app.js:93-98 | the hashing loop leaves exactly the xmur3 seed of the string's code units |
| Prompts.Xmur3.Next | app.js:99-104 | each call advances the state by the finaliser and returns it |
| Prompts.SfcStep | app.js:108-115 | the counter word advances by one on every draw |
| Prompts.Sfc32.constructor | app.js:106 | the generator starts from the four words given |
| Prompts.Sfc32.Next | app.js:107-117 | a call moves the state and returns the word as SfcStep defines |
| Prompts.Mix | app.js:96-97 | one round of the xmur3 loop (its definition) |
| Prompts.Absorb | app.js:95-98 | the xmur3 loop over the code units (its definition) |
| Prompts.Xmur3Seed | app.js:94-98 | the hash state after xmur3 has read the string, its length taken as 32 bits (its definition) |
| Prompts.Finalise | app.js:100-103 | one call of the closure xmur3 returns (its definition) |
| Prompts.DailyWord | app.js:119-120 | four xmur3 outputs seed sfc32, drawn once (its definition; SeededDraw is proved equal to it) |
| Prompts.DailySeed | app.js:137 | `'sloth-reading-nest:' + todayKey()` (its definition) |
| Prompts.SeededDraw | app.js:91-121 | drawing from `seededRand(seed)` once gives DailyWord(seed) |
| Prompts.DayKey | app.js:86-89 | `todayKey` has the year's digits plus six characters, the month and day padded to two digits |
| Prompts.Fraction | app.js:116 | `t / 2^32` lies in [0, 1) |
| Prompts.DrawIndex | app.js:138 | `Math.floor(r * 10)` is a valid index into the prompt list |
| Prompts.PromptIndex | app.js:138 | the integer index `(t*10) div 2^32` agrees with `floor(t/2^32 * 10)` and is in range |
| Prompts.NewPromptAsWritten | app.js:136-142 | the daily branch yields the prompt at PromptIndex of today's word |
| Prompts.FreshPromptThrows | app.js:137-138 | the fresh branch never yields a prompt: it throws |
| Prompts.NewPromptCorrected | app.js:136-142 | the prompt is in the list: the daily one, or the one the random draw picks |
| Prompts.PickPrompt | app.js:136-142 | the prompt of the day for a calendar date, or the fresh draw |
| Prompts.FreshReachesEveryPrompt | app.js:137-139 | every prompt can come out of a fresh draw |
| Seqs.Filter | app.js:162-163 | `Array.prototype.filter`: the result is a sub-list holding exactly the kept elements |
| Seqs.Join | app.js:229 | `Array.prototype.join(sep)` (its definition) |
| Seqs.Reverse | app.js:213 | `[...xs].reverse()`: element k is element n-1-k |

## Left out

- DOM, canvas, audio and the `wire` event glue: the `render*` functions apart from the prompt fill below, `drawCard`, `toast`, and the book form. These are display and input plumbing.
- App.Nest.SetNow, App.Nest.UpsertBook, App.Nest.DeleteBook, App.Nest.LogSession, App.Nest.ClearSessions: each is followed in the source by `render()`, whose `renderPrompt` (app.js:873-876) would replace a falsy prompt with today's prompt and save. These methods keep the prompt unchanged. That agrees with the source whenever the prompt is truthy, which App.Nest.Boot and App.Nest.Import leave it. App.Nest.Import models the fill itself.
- `requestAnimationFrame`/`cancelAnimationFrame`: the loop that repeats `tick` is left to the caller, and the frame handle is not a field.
- `ding`: an audio side effect only.
- `localStorage`, `JSON.parse` and `JSON.stringify`. The stored blob is the field `slot` of type `Stored`: missing, unparsable, not an object, or a parsed `Document` whose fields are `Option`s. A truthy `data` that is not an object is read as a document with every field missing.
- Document: JSON values of the wrong type (a string `timerMinutes`, a non-array `books`) are modelled only as missing.
- Document: `timerMinutes` is an integer. A stored fraction is not modelled. In the source, 7.5 loads as 450 seconds, but the import's `parseInt` reads it as 7, giving 420 seconds. So Persist.ImportTimerAgreesWithLoad holds for integers only.
- Text.Decimal: `String(n)` switches to exponent form (`1e+21`) at magnitude 1e21, which `parseInt` reads as 1. Decimal always writes plain digits, so Text.SafeIntOfDecimal says nothing about such numbers.
- Text.Lower / ShelfFilter.Matches: case folding is ASCII only. `toLowerCase` lowers all of Unicode, with a context-sensitive final sigma. So the query "émile" lists a book titled "Émile" in the source, but not in the model.
- Book and Session: the fields of stored books and sessions are taken to have the types the app writes.
- `FileReader`, `Blob`, download anchors, `alert` and `confirm`. `confirm` is the `confirmed` parameter, and the import error is returned.
- `uid`, `Date.now()` and `Math.random()`. The new session's id and time and the random draw are parameters.
- Local dates (`todayKey`'s `new Date()`, `toDateString`, `toISOString`, `toLocaleString`). They are time-zone and locale dependent. They appear as parameters (`iso`, `local`, `day`, and year/month/date).
- App.Nest.NewPrompt, App.Nest.Import and App.Nest.Boot take today's first `seededRand` word as the parameter `daily`. `Prompts.PickPrompt` and `Prompts.SeededDraw` connect it to the date. Hashing the date inside those methods makes the proof too costly for the solver.
- Stats.ComputeStats: one `now` stands for both `Date.now()` and the `new Date()` that the same-day test builds again in every callback. The model cannot express a clock that moves between callbacks, for example past midnight during the loop.
- Prompts: no statement about how well xmur3/sfc32 mix. The model proves only what each step computes.
- Prompts.SfcStep: its contract states only the counter. The full update is its body, which `Sfc32.Next` delegates to.
- Floating point: `Math.round` and the division by `2^32` are exact integer or real arithmetic. For the timer, `tick` is exact to the millisecond, since the clock is whole milliseconds.
- The snapshot share link, `makeSnapshot` and `tryLoadSnapshotFromHash` (`btoa` and URI encoders).
- `sw.js` (service-worker caching) is not part of this model.
- `exportData`'s file name and pretty-printing. Only the payload is modelled.

## Findings

| source | as written | input that shows it | evidently intended | confidence | as-written member | corrected member |
|---|---|---|---|---|---|---|
| app.js:136-139, 946 | `const r = fresh ? Math.random() : seededRand(...)` followed by `r()`: with `fresh` the number from `Math.random()` is called as a function, so a TypeError is thrown and the prompt never changes | `newPrompt(true)`, which the "random prompt" button runs | draw a prompt uniformly with `Math.random()` | high, not executed | Prompts.NewPromptAsWritten, Prompts.FreshPromptThrows | Prompts.NewPromptCorrected, Prompts.FreshReachesEveryPrompt, App.Nest.NewPrompt |

Where the code and its design description differ, the model follows the code:

- `load` of a missing or broken slot leaves the current state as it is. It does not build a fresh empty document.
- A `timerMinutes` of 0 is ignored, because the test is on truthiness.
- `load` itself does not save, and neither does the boot's first-reading fallback.
- `save(load(d)) == d` holds only for documents the app could have written (Persist.SaveAfterLoad). There are four conditions:
  - `books` and `sessions` are present, because `load` turns a missing list into `[]`, which `save` then writes out;
  - `nowId` and `prompt` are not the empty string, because `load` turns `""` into null;
  - `timerMinutes` is present, because `load` otherwise keeps the current length, which `save` then writes out;
  - `timerMinutes` is already in [5, 180], because `load` clamps.
