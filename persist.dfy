/** Persistence of the nest: the document `save` writes under the storage
    key, what `load` takes back from it, and the JSON backup that
    `exportData` writes and `importDataFromFile` reads. JSON text itself is
    not modelled: a stored or imported value is given already parsed, and a
    field that is missing or of the wrong kind is `None`. */
module Persist {
  import opened Wrappers
  import opened Text
  import opened Library
  import opened Timing

  /** `'sloth-reading-nest'`, the `app` tag of an export. */
  const APP_ID := "sloth-reading-nest"
  const EXPORT_VERSION := 1

  /** The saved object. `books` and `sessions` are `None` when they are not
      arrays; `timerMinutes` is a JSON number (`save` only ever writes a
      whole number). */
  datatype Document = Document(books: Option<seq<Book>>, sessions: Option<seq<Session>>,
                               nowId: Option<string>, prompt: Option<string>,
                               timerMinutes: Option<int>)

  /** What the storage slot holds: nothing (or ""), text `JSON.parse`
      rejects, a JSON value that is not an object, or an object. */
  datatype Stored = Missing | Unparsable | NotAnObject | Parsed(doc: Document)

  /** The persisted part of the app state. */
  datatype AppData = AppData(books: seq<Book>, sessions: seq<Session>,
                             nowId: Option<string>, prompt: Option<string>, totalSec: int)

  /** State as the app keeps it: `nowId` and `prompt` are `null` or a
      non-empty string, and the timer length is valid. */
  predicate WellFormed(d: AppData)
  {
    (d.nowId.Some? ==> d.nowId.value != "") && (d.prompt.Some? ==> d.prompt.value != "")
    && ValidTotal(d.totalSec)
  }

  /** `x || null` for an optional string. */
  function OrNull(v: Option<string>): (r: Option<string>)
    ensures r.Some? ==> r.value != ""
    ensures Truthy(v) ==> r == v
    ensures !Truthy(v) ==> r == None
  {
    if Truthy(v) then v else None
  }

  /** `Array.isArray(x) ? x : []`. */
  function OrEmpty<T>(v: Option<seq<T>>): (r: seq<T>)
    ensures v.Some? ==> r == v.value
    ensures v.None? ==> r == []
  {
    if v.Some? then v.value else []
  }

  /** `save()`: the document written to storage. */
  function Save(d: AppData): (doc: Document)
    ensures doc.books == Some(d.books) && doc.sessions == Some(d.sessions)
    ensures ValidTotal(d.totalSec) ==>
      doc.timerMinutes.Some? && doc.timerMinutes.value * 60 == d.totalSec
  {
    var doc := Document(Some(d.books), Some(d.sessions), d.nowId, d.prompt, Some(MinutesOf(d.totalSec)));
    if ValidTotal(d.totalSec) then MinutesOfValid(d.totalSec); doc else doc
  }

  /** The timer length `load` adopts: `if (data.timerMinutes)` then
      `clamp(timerMinutes, 5, 180) * 60`; a missing or zero value leaves the
      timer alone. */
  function LoadedTimerSec(m: Option<int>): (sec: Option<int>)
    ensures sec.Some? <==> m.Some? && m.value != 0
    ensures sec.Some? ==> ValidTotal(sec.value)
    ensures sec.Some? && MIN_MINUTES <= m.value <= MAX_MINUTES ==> sec.value == m.value * 60
  {
    if m.Some? && m.value != 0 then Some(ClampedSeconds(m.value)) else None
  }

  /** The state after `load()` from the slot `stored`, starting from `cur`. */
  function Load(stored: Stored, cur: AppData): (r: AppData)
    ensures !stored.Parsed? ==> r == cur
    ensures stored.Parsed? ==>
      r.books == OrEmpty(stored.doc.books) && r.sessions == OrEmpty(stored.doc.sessions)
      && r.nowId == OrNull(stored.doc.nowId) && r.prompt == OrNull(stored.doc.prompt)
    ensures stored.Parsed? ==>
      r.totalSec == (if LoadedTimerSec(stored.doc.timerMinutes).Some?
                     then LoadedTimerSec(stored.doc.timerMinutes).value else cur.totalSec)
    ensures ValidTotal(cur.totalSec) ==> ValidTotal(r.totalSec)
  {
    match stored
    case Parsed(doc) =>
      var sec := LoadedTimerSec(doc.timerMinutes);
      AppData(OrEmpty(doc.books), OrEmpty(doc.sessions), OrNull(doc.nowId), OrNull(doc.prompt),
              if sec.Some? then sec.value else cur.totalSec)
    case _ => cur
  }

  /** Loading what was saved restores the state exactly, whatever state the
      page started with. */
  lemma LoadAfterSave(d: AppData, cur: AppData)
    requires WellFormed(d)
    ensures Load(Parsed(Save(d)), cur) == d
  {
    MinutesOfValid(d.totalSec);
  }

  /** Saving again right after a load writes back the document that was
      loaded, for a document the app could have written. */
  lemma SaveAfterLoad(doc: Document, cur: AppData)
    requires doc.books.Some? && doc.sessions.Some?
    requires doc.nowId.Some? ==> doc.nowId.value != ""
    requires doc.prompt.Some? ==> doc.prompt.value != ""
    requires doc.timerMinutes.Some? && MIN_MINUTES <= doc.timerMinutes.value <= MAX_MINUTES
    ensures Save(Load(Parsed(doc), cur)) == doc
  {
    RoundDivExact(doc.timerMinutes.value, 60);
  }

  // ---- export and import ----

  /** A parsed backup file: `app`, `version`, `exportedAt` and `data` (the
      last `None` when it is missing or falsy). */
  datatype Payload = Payload(app: Option<string>, version: Option<int>, exportedAt: Option<int>,
                             data: Option<Document>)

  /** What `FileReader` delivered: text `JSON.parse` rejects, or a value. */
  datatype ImportFile = BadJson | Json(payload: Payload)

  /** Why an import was refused: the JSON error, or the source's own
      'Not a Sloth Reading Nest export'. */
  datatype ImportError = SyntaxError | NotAnExport

  /** `exportData()` at epoch time `now`. */
  function Export(d: AppData, now: int): (p: Payload)
    ensures p.app == Some(APP_ID) && p.data == Some(Save(d))
  {
    Payload(Some(APP_ID), Some(EXPORT_VERSION), Some(now), Some(Save(d)))
  }

  /** The timer length the import adopts: `safeInt(d.timerMinutes)`, and only
      when that is truthy (not `null`, not 0). */
  function ImportedTimerSec(m: Option<int>): (sec: Option<int>)
    ensures sec.Some? ==> ValidTotal(sec.value)
  {
    var n := SafeInt(if m.Some? && m.value != 0 then Decimal(m.value) else "");
    if n.Some? && n.value != 0 then Some(ClampedSeconds(n.value)) else None
  }

  /** For a numeric field the import's `safeInt` path and `load`'s truthiness
      test pick the same timer length. */
  lemma ImportTimerAgreesWithLoad(m: Option<int>)
    ensures ImportedTimerSec(m) == LoadedTimerSec(m)
  {
    if m.Some? && m.value != 0 {
      SafeIntOfDecimal(m.value);
    } else {
      SafeIntOfBlank("");
    }
  }

  /** The state after `importDataFromFile`, or why nothing changed. */
  function Import(file: ImportFile, cur: AppData): (r: Result<AppData, ImportError>)
    ensures r.Err? <==>
      file.BadJson? || file.payload.app != Some(APP_ID) || file.payload.data.None?
    ensures file.BadJson? ==> r == Err(SyntaxError)
    ensures r.Ok? ==>
      var doc := file.payload.data.value;
      r.value.books == OrEmpty(doc.books) && r.value.sessions == OrEmpty(doc.sessions)
      && r.value.nowId == OrNull(doc.nowId) && r.value.prompt == OrNull(doc.prompt)
      && r.value.totalSec == (if ImportedTimerSec(doc.timerMinutes).Some?
                              then ImportedTimerSec(doc.timerMinutes).value else cur.totalSec)
  {
    match file
    case BadJson => Err(SyntaxError)
    case Json(p) =>
      if p.app != Some(APP_ID) || p.data.None? then Err(NotAnExport)
      else
        var doc := p.data.value;
        var sec := ImportedTimerSec(doc.timerMinutes);
        Ok(AppData(OrEmpty(doc.books), OrEmpty(doc.sessions), OrNull(doc.nowId), OrNull(doc.prompt),
                   if sec.Some? then sec.value else cur.totalSec))
  }

  /** Accepting an export is the same as loading its `data` object. */
  lemma ImportIsLoad(p: Payload, cur: AppData)
    requires p.app == Some(APP_ID) && p.data.Some?
    ensures Import(Json(p), cur) == Ok(Load(Parsed(p.data.value), cur))
  {
    ImportTimerAgreesWithLoad(p.data.value.timerMinutes);
  }

  /** A backup restores the state it was taken from, into any page. */
  lemma ImportAfterExport(d: AppData, now: int, cur: AppData)
    requires WellFormed(d)
    ensures Import(Json(Export(d, now)), cur) == Ok(d)
  {
    ImportIsLoad(Export(d, now), cur);
    LoadAfterSave(d, cur);
  }
}
