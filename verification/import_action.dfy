/**
 * The import server actions: `uploadAndDiff` (guard checks, then the diff against the
 * current tables) and `applyChange` (one change record applied to the `animes` table,
 * the `user_anime_lists` table and the log).
 */
module ImportAction {
  import opened Base
  import opened Decimal
  import opened Dates
  import opened WatchStatus
  import opened ImportData
  import opened Catalog
  import opened DiffEngine
  import opened SystemLog

  /** `MAX_FILE_SIZE`: 5 MB. */
  const MaxFileSize: nat := 5 * 1024 * 1024

  /** The uploaded form field: file name, size in bytes and contents. */
  datatype UploadFile = UploadFile(name: string, size: nat, text: string)

  /** The three tables the applier touches: rows by id, list status by anime id, and the log. */
  datatype Tables = Tables(animes: map<int, AnimeRow>, list: map<int, Option<Status>>, log: seq<LogEntry>)

  /**
   * The outside world as `applyChange` sees it: the AniList single-title query, the error
   * (if any) each upsert reports, and whether the database accepts a log row.
   */
  datatype Backend = Backend(
    fetch: nat -> Option<Media>,
    upsertAnime: AnimeRow -> Option<string>,
    upsertList: (int, Option<Status>) -> Option<string>,
    insertLog: LogEntry -> bool)

  datatype ApplyResult = Applied | ApplyFailed(error: string)

  /** The spelling of a change type in log descriptions. */
  function ChangeTypeName(t: ChangeType): string {
    match t
    case New => "NEW"
    case Update => "UPDATE"
    case StatusChange => "STATUS_CHANGE"
    case NoChange => "NO_CHANGE"
  }

  /**
   * The row `fetchAniList` builds from a catalog entry. The English title falls back to the
   * romaji one, so it is empty only when both are; the cover is the extra-large image or else
   * the large one; dates use the defaulting policy; missing studios become an empty list.
   * The native title is copied; the adult flag, `ustatus` and relations are not sent.
   */
  function RichRow(m: Media): (row: AnimeRow)
    ensures row.id == m.id && row.titleRomaji == m.title.romaji && row.titleNative == m.title.native
    ensures Filled(row.titleEnglish) <==> Filled(m.title.english) || m.title.romaji != ""
    ensures Filled(m.title.english) ==> row.titleEnglish == m.title.english
    ensures !Filled(m.title.english) ==> row.titleEnglish == Some(m.title.romaji)
    ensures row.coverImage.Some? <==> Filled(m.coverImage.extraLarge) || m.coverImage.large.Some?
    ensures Filled(m.coverImage.extraLarge) ==> row.coverImage == m.coverImage.extraLarge
    ensures !Filled(m.coverImage.extraLarge) ==> row.coverImage == m.coverImage.large
    ensures row.startDate.Some? <==> m.startDate.Some? && Given(m.startDate.value.year)
    ensures row.endDate.Some? <==> m.endDate.Some? && Given(m.endDate.value.year)
    ensures row.startDate == FormatDateDefaulting(m.startDate) && row.endDate == FormatDateDefaulting(m.endDate)
    ensures m.studios.Some? ==> row.studios == m.studios.value
    ensures m.studios.None? ==> row.studios == []
    ensures row.details == m.details && row.release == Some(m.release)
    ensures row.isAdult.None? && row.ustatus.None? && row.relations == []
  {
    AnimeRow(
      m.id,
      m.title.romaji,
      Some(OrTitle(m.title.english, m.title.romaji)),
      m.title.native,
      OrText(m.coverImage.extraLarge, m.coverImage.large),
      FormatDateDefaulting(m.startDate),
      FormatDateDefaulting(m.endDate),
      m.studios.GetOr([]),
      m.details,
      Some(m.release),
      None,
      None,
      [])
  }

  /** The APPLY_CHANGE row written after a change went through. */
  function AppliedEntry(diff: DiffItem): LogEntry {
    LogEntry(EventType.ApplyChange,
             "Applied " + ChangeTypeName(diff.kind) + " for ID " + Show(diff.id) + " (" + diff.title + ")",
             AppliedDiff(diff))
  }

  /** The ERROR row written when an upsert of a NEW change failed. */
  function ErrorEntry(diff: DiffItem, message: string): LogEntry {
    LogEntry(Error, "Failed to apply change for " + Show(diff.id), ErrorMessage(message))
  }

  /**
   * `applyChange(diff)`. NEW fetches the title and upserts its row, then its list status;
   * STATUS_CHANGE upserts only the list status and ignores that upsert's error; the other kinds
   * write nothing. Success inserts one APPLY_CHANGE row; a failed upsert inserts one ERROR row;
   * a failed fetch returns an error and writes nothing at all. A refused log insert goes unnoticed.
   */
  function ApplyChange(diff: DiffItem, b: Backend, t: Tables): (ApplyResult, Tables)
  {
    if diff.kind == New then
      match b.fetch(diff.id)
      case None => (ApplyFailed("Failed to fetch data from AniList"), t)
      case Some(media) =>
        var row := RichRow(media);
        match b.upsertAnime(row)
        case Some(e) => Fail(diff, b, "DB Error: " + e, t)
        case None =>
          var written := t.(animes := t.animes[row.id := row]);
          match b.upsertList(diff.id, diff.newStatus)
          case Some(e) => Fail(diff, b, "DB List Error: " + e, written)
          case None => Succeed(diff, b, written.(list := written.list[diff.id := diff.newStatus]))
    else if diff.kind == StatusChange then
      if b.upsertList(diff.id, diff.newStatus).None? then
        Succeed(diff, b, t.(list := t.list[diff.id := diff.newStatus]))
      else
        Succeed(diff, b, t)
    else
      Succeed(diff, b, t)
  }

  function Succeed(diff: DiffItem, b: Backend, t: Tables): (ApplyResult, Tables) {
    (Applied, t.(log := Insert(t.log, AppliedEntry(diff), b.insertLog)))
  }

  function Fail(diff: DiffItem, b: Backend, message: string, t: Tables): (ApplyResult, Tables) {
    (ApplyFailed(message), t.(log := Insert(t.log, ErrorEntry(diff, message), b.insertLog)))
  }

  /**
   * The outcome of `applyChange`, case by case. NEW with a failed fetch returns an error and
   * writes nothing; a failed title upsert writes only an ERROR row; a failed list upsert keeps
   * the title row but not the status; otherwise both are written and an APPLY_CHANGE row is
   * logged. STATUS_CHANGE succeeds even when its list upsert fails. UPDATE and NO_CHANGE only log.
   */
  lemma ApplyChangeEffects(diff: DiffItem, b: Backend, t: Tables)
    ensures var (res, t') := ApplyChange(diff, b, t);
      diff.kind == New && b.fetch(diff.id).None? ==>
        res == ApplyFailed("Failed to fetch data from AniList") && t' == t
    ensures var (res, t') := ApplyChange(diff, b, t);
      diff.kind == New && b.fetch(diff.id).Some? ==>
        var row := RichRow(b.fetch(diff.id).value);
        if b.upsertAnime(row).Some? then
          res == ApplyFailed("DB Error: " + b.upsertAnime(row).value)
          && t' == t.(log := Insert(t.log, ErrorEntry(diff, res.error), b.insertLog))
        else if b.upsertList(diff.id, diff.newStatus).Some? then
          res == ApplyFailed("DB List Error: " + b.upsertList(diff.id, diff.newStatus).value)
          && t' == Tables(t.animes[row.id := row], t.list, Insert(t.log, ErrorEntry(diff, res.error), b.insertLog))
        else
          res == Applied
          && t' == Tables(t.animes[row.id := row], t.list[diff.id := diff.newStatus], Insert(t.log, AppliedEntry(diff), b.insertLog))
    ensures var (res, t') := ApplyChange(diff, b, t);
      diff.kind == StatusChange ==>
        res == Applied && t'.animes == t.animes && t'.log == Insert(t.log, AppliedEntry(diff), b.insertLog)
        && t'.list == (if b.upsertList(diff.id, diff.newStatus).None? then t.list[diff.id := diff.newStatus] else t.list)
    ensures var (res, t') := ApplyChange(diff, b, t);
      diff.kind in {Update, NoChange} ==> res == Applied && t' == t.(log := Insert(t.log, AppliedEntry(diff), b.insertLog))
  {
  }

  /**
   * Every call appends at most one log row: the APPLY_CHANGE row on success, the ERROR row on
   * a failed upsert, none when the fetch failed; the earlier rows stay as they were. A row the
   * database refuses is simply missing, and the result does not change.
   */
  lemma ApplyChangeLogsOnce(diff: DiffItem, b: Backend, t: Tables)
    ensures var (res, t') := ApplyChange(diff, b, t);
      && t'.log[..|t.log|] == t.log
      && (res.Applied? ==> t'.log == Insert(t.log, AppliedEntry(diff), b.insertLog))
      && (res.ApplyFailed? && t'.log != t.log ==> t'.log == t.log + [ErrorEntry(diff, res.error)])
      && (diff.kind == New && b.fetch(diff.id).None? ==> res.ApplyFailed? && t'.log == t.log)
      && (AcceptsLogs(b) ==> (t'.log == t.log <==> diff.kind == New && b.fetch(diff.id).None?))
  {
    ApplyChangeEffects(diff, b, t);
  }

  /**
   * Applying a change twice leaves both tables as applying it once did; only the log grows,
   * by the rows of the second call. The upserts replace rather than insert, so a batch that
   * stopped part-way can be applied again.
   */
  lemma ApplyChangeIdempotent(diff: DiffItem, b: Backend, t: Tables)
    ensures var once := ApplyChange(diff, b, t).1;
      var twice := ApplyChange(diff, b, once).1;
      twice.animes == once.animes && twice.list == once.list && |twice.log| <= |once.log| + 1
  {
    var once := ApplyChange(diff, b, t).1;
    ApplyChangeEffects(diff, b, t);
    ApplyChangeEffects(diff, b, once);
    if diff.kind == New && b.fetch(diff.id).Some? {
      var row := RichRow(b.fetch(diff.id).value);
      if b.upsertAnime(row).None? {
        assert once.animes == t.animes[row.id := row];
      }
    }
  }

  /** The same for STATUS_CHANGE, spelled out: the list entry is the same after one and after two applications, and the log has one more row. */
  lemma StatusChangeTwice(diff: DiffItem, b: Backend, t: Tables)
    requires diff.kind == StatusChange
    ensures var once := ApplyChange(diff, b, t).1;
      var twice := ApplyChange(diff, b, once).1;
      twice.list == once.list && twice.animes == t.animes && twice.log == Insert(once.log, AppliedEntry(diff), b.insertLog)
  {
  }

  // ----- Applying a whole diff -----

  /** The change records applied one after another. */
  function ApplyAll(diffs: seq<DiffItem>, b: Backend, t: Tables): Tables {
    if |diffs| == 0 then t else ApplyChange(diffs[|diffs| - 1], b, ApplyAll(diffs[..|diffs| - 1], b, t)).1
  }

  /** A database that accepts every log row. */
  ghost predicate AcceptsLogs(b: Backend) {
    forall e :: b.insertLog(e)
  }

  /** A backend on which nothing fails and a fetch returns the title asked for. */
  ghost predicate Reliable(b: Backend) {
    && (forall id :: b.fetch(id).Some? && b.fetch(id).value.id == id)
    && (forall row :: b.upsertAnime(row).None?)
    && (forall id, s :: b.upsertList(id, s).None?)
  }

  /** Change records with pairwise distinct ids, each NEW or STATUS_CHANGE: what the diff engine emits. */
  predicate DistinctChanges(diffs: seq<DiffItem>) {
    && (forall i, j :: 0 <= i < j < |diffs| ==> diffs[i].id != diffs[j].id)
    && (forall i :: 0 <= i < |diffs| ==> diffs[i].kind in {New, StatusChange})
  }

  lemma DiffIsDistinctChanges(es: seq<Entry>, animes: map<int, AnimeRow>, list: map<int, Option<Status>>)
    ensures DistinctChanges(DiffOf(es, animes, list))
  {
    DiffIdsUnique(es, animes, list);
    DiffKinds(es, animes, list);
  }

  /** A single change never removes a stored title. */
  lemma ApplyChangeKeepsAnimes(d: DiffItem, b: Backend, t: Tables)
    ensures t.animes.Keys <= ApplyChange(d, b, t).1.animes.Keys
  {
  }

  /** Applying changes never removes a stored title. */
  lemma {:induction false} ApplyAllKeepsAnimes(diffs: seq<DiffItem>, b: Backend, t: Tables)
    ensures t.animes.Keys <= ApplyAll(diffs, b, t).animes.Keys
  {
    if |diffs| > 0 {
      ApplyAllKeepsAnimes(diffs[..|diffs| - 1], b, t);
      ApplyChangeKeepsAnimes(diffs[|diffs| - 1], b, ApplyAll(diffs[..|diffs| - 1], b, t));
    }
  }

  /** The list entry of an id that no change record names is left as it was. */
  lemma {:induction false} ApplyAllKeepsOtherStatuses(diffs: seq<DiffItem>, b: Backend, t: Tables, id: int)
    requires forall i :: 0 <= i < |diffs| ==> diffs[i].id != id
    ensures var t' := ApplyAll(diffs, b, t);
      (id in t'.list <==> id in t.list) && (id in t.list ==> t'.list[id] == t.list[id])
  {
    if |diffs| > 0 {
      ApplyAllKeepsOtherStatuses(diffs[..|diffs| - 1], b, t, id);
      ApplyChangeKeepsOtherStatus(diffs[|diffs| - 1], b, ApplyAll(diffs[..|diffs| - 1], b, t), id);
    }
  }

  /** A change record leaves the list entry of every other id as it was. */
  lemma ApplyChangeKeepsOtherStatus(d: DiffItem, b: Backend, t: Tables, id: int)
    requires d.id != id
    ensures var t' := ApplyChange(d, b, t).1;
      (id in t'.list <==> id in t.list) && (id in t.list ==> t'.list[id] == t.list[id])
  {
    ApplyChangeEffects(d, b, t);
  }

  /** On a reliable backend, one NEW or STATUS_CHANGE sets the list entry and leaves the title stored. */
  lemma ReliableApplyChange(d: DiffItem, b: Backend, t: Tables)
    requires Reliable(b) && d.kind in {New, StatusChange}
    ensures var t' := ApplyChange(d, b, t).1;
      t'.list == t.list[d.id := d.newStatus] && (d.kind == New ==> d.id in t'.animes)
  {
    assert b.upsertList(d.id, d.newStatus).None?;
    if d.kind == New {
      assert b.fetch(d.id).Some? && b.fetch(d.id).value.id == d.id;
      assert b.upsertAnime(RichRow(b.fetch(d.id).value)).None?;
    }
  }

  /** On a reliable backend, the id of a change record ends up with that record's status, and stored. */
  lemma {:induction false} ApplyAllSettles(diffs: seq<DiffItem>, b: Backend, t: Tables, i: nat)
    requires Reliable(b) && DistinctChanges(diffs) && i < |diffs|
    ensures var t' := ApplyAll(diffs, b, t);
      diffs[i].id in t'.list && t'.list[diffs[i].id] == diffs[i].newStatus
      && (diffs[i].kind == New ==> diffs[i].id in t'.animes)
  {
    var n := |diffs| - 1;
    if i < n {
      DistinctChangesPrefix(diffs, n);
      ApplyAllSettles(diffs[..n], b, t, i);
      ApplyLastKeepsSettled(diffs, b, t, i);
    } else {
      ApplyLastSettles(diffs, b, t);
    }
  }

  /** Dropping the last change record keeps the ids distinct. */
  lemma DistinctChangesPrefix(diffs: seq<DiffItem>, n: nat)
    requires DistinctChanges(diffs) && n <= |diffs|
    ensures DistinctChanges(diffs[..n])
  {
    assert forall i :: 0 <= i < n ==> diffs[..n][i] == diffs[i];
  }

  /** The last change record settles its own id: no earlier record touched it. */
  lemma ApplyLastSettles(diffs: seq<DiffItem>, b: Backend, t: Tables)
    requires Reliable(b) && DistinctChanges(diffs) && |diffs| > 0
    ensures var d := diffs[|diffs| - 1]; var t' := ApplyAll(diffs, b, t);
      d.id in t'.list && t'.list[d.id] == d.newStatus && (d.kind == New ==> d.id in t'.animes)
  {
    var n := |diffs| - 1;
    var mid := ApplyAll(diffs[..n], b, t);
    ReliableApplyChange(diffs[n], b, mid);
  }

  /** A settled id stays settled when a later record for another id is applied. */
  lemma ApplyLastKeepsSettled(diffs: seq<DiffItem>, b: Backend, t: Tables, i: nat)
    requires Reliable(b) && DistinctChanges(diffs) && i < |diffs| - 1
    requires var mid := ApplyAll(diffs[..|diffs| - 1], b, t);
      diffs[i].id in mid.list && mid.list[diffs[i].id] == diffs[i].newStatus
      && (diffs[i].kind == New ==> diffs[i].id in mid.animes)
    ensures var t' := ApplyAll(diffs, b, t);
      diffs[i].id in t'.list && t'.list[diffs[i].id] == diffs[i].newStatus
      && (diffs[i].kind == New ==> diffs[i].id in t'.animes)
  {
    var n := |diffs| - 1;
    var mid := ApplyAll(diffs[..n], b, t);
    assert diffs[n].id != diffs[i].id;
    ReliableApplyChange(diffs[n], b, mid);
    ApplyChangeKeepsAnimes(diffs[n], b, mid);
  }

  /**
   * After a whole diff has been applied on a backend where nothing fails, the first record of
   * every id in the document classifies to nothing against the updated tables.
   */
  lemma SettledAfterApply(es: seq<Entry>, b: Backend, t: Tables, id: nat)
    requires Reliable(b) && id in IdsOf(es)
    ensures var t' := ApplyAll(DiffOf(es, t.animes, t.list), b, t);
      Classify(id, es[FirstPos(es, id)], t'.animes, t'.list).None?
  {
    var diffs := DiffOf(es, t.animes, t.list);
    ApplyAllKeepsAnimes(diffs, b, t);
    if Classify(id, es[FirstPos(es, id)], t.animes, t.list).None? {
      UntouchedIdNotEmitted(es, t, id);
      ApplyAllKeepsOtherStatuses(diffs, b, t, id);
    } else {
      TouchedIdEmitted(es, t, id);
      var i :| 0 <= i < |diffs| && diffs[i].id == id
        && diffs[i].newStatus == Some(MapStatus(es[FirstPos(es, id)].key))
        && (diffs[i].kind == New || id in t.animes);
      DiffIsDistinctChanges(es, t.animes, t.list);
      ApplyAllSettles(diffs, b, t, i);
    }
  }

  /** An id whose first record classifies to nothing has no change record. */
  lemma UntouchedIdNotEmitted(es: seq<Entry>, t: Tables, id: nat)
    requires id in IdsOf(es) && Classify(id, es[FirstPos(es, id)], t.animes, t.list).None?
    ensures var diffs := DiffOf(es, t.animes, t.list);
      forall i :: 0 <= i < |diffs| ==> diffs[i].id != id
  {
    var diffs := DiffOf(es, t.animes, t.list);
    forall i | 0 <= i < |diffs|
      ensures diffs[i].id != id
    {
      DiffItemAt(es, t.animes, t.list, i);
    }
  }

  /** An id whose first record classifies to a change has a record carrying the first category's status. */
  lemma TouchedIdEmitted(es: seq<Entry>, t: Tables, id: nat)
    requires id in IdsOf(es) && Classify(id, es[FirstPos(es, id)], t.animes, t.list).Some?
    ensures var diffs := DiffOf(es, t.animes, t.list);
      exists i :: 0 <= i < |diffs| && diffs[i].id == id
        && diffs[i].newStatus == Some(MapStatus(es[FirstPos(es, id)].key))
        && (diffs[i].kind == New || id in t.animes)
  {
    var i := DiffIndexOf(es, t.animes, t.list, id);
    DiffItemAt(es, t.animes, t.list, i);
  }

  /**
   * Reconciliation converges: once every record of a diff has been applied on a backend where
   * nothing fails, computing the diff again against the updated tables finds nothing to do.
   */
  lemma DiffThenApplyConverges(es: seq<Entry>, b: Backend, t: Tables)
    requires Reliable(b)
    ensures var t' := ApplyAll(DiffOf(es, t.animes, t.list), b, t);
      DiffOf(es, t'.animes, t'.list) == []
  {
    var t' := ApplyAll(DiffOf(es, t.animes, t.list), b, t);
    forall id | id in IdsOf(es)
      ensures Classify(id, es[FirstPos(es, id)], t'.animes, t'.list).None?
    {
      SettledAfterApply(es, b, t, id);
    }
    NothingToDoWhenSettled(es, t'.animes, t'.list);
  }

  /** The diff is empty exactly when the first record of every id classifies to nothing. */
  lemma NothingToDoWhenSettled(es: seq<Entry>, animes: map<int, AnimeRow>, list: map<int, Option<Status>>)
    ensures DiffOf(es, animes, list) == [] <==>
      forall id :: id in IdsOf(es) ==> Classify(id, es[FirstPos(es, id)], animes, list).None?
  {
    var r := DiffOf(es, animes, list);
    if |r| > 0 {
      DiffItemAt(es, animes, list, 0);
    } else {
      forall id | id in IdsOf(es)
        ensures Classify(id, es[FirstPos(es, id)], animes, list).None?
      {
        if Classify(id, es[FirstPos(es, id)], animes, list).Some? {
          var i := DiffIndexOf(es, animes, list, id);
          assert false;
        }
      }
    }
  }

  // ----- Upload -----

  /**
   * `uploadAndDiff`: reject a missing file or one over 5 MB before reading it; reject text that
   * is not JSON; reject a failed read of either table; only then walk the document, so JSON of
   * the wrong shape is reported as a parsing error after the reads; otherwise log one
   * IMPORT_SCAN row with the number of changes found (a refused insert goes unnoticed).
   */
  method UploadAndDiff(file: Option<UploadFile>, parse: string -> ParsedText,
                       dbAnimes: Option<seq<AnimeRow>>, dbList: Option<seq<ListRow>>,
                       insertLog: LogEntry -> bool, log: seq<LogEntry>)
    returns (r: Outcome<seq<DiffItem>>, log': seq<LogEntry>)
    ensures r.Err? ==> log' == log
    ensures file.None? ==> r == Err("No file uploaded")
    ensures file.Some? && file.value.size > MaxFileSize ==> r == Err("File too large")
    ensures file.Some? && file.value.size <= MaxFileSize && parse(file.value.text).NotJson? ==>
              r == Err("Invalid JSON or parsing error")
    ensures file.Some? && file.value.size <= MaxFileSize && !parse(file.value.text).NotJson? && (dbAnimes.None? || dbList.None?) ==>
              r == Err("Database fetch failed")
    ensures file.Some? && file.value.size <= MaxFileSize && parse(file.value.text).NotAnExport? && dbAnimes.Some? && dbList.Some? ==>
              r == Err("Invalid JSON or parsing error")
    ensures r.Ok? <==> file.Some? && file.value.size <= MaxFileSize && parse(file.value.text).Export? && dbAnimes.Some? && dbList.Some?
    ensures r.Ok? ==>
              var scan := LogEntry(ImportScan, "Scanned " + file.value.name + ". Found " + Show(|r.value|) + " changes.",
                                   DiffCount(|r.value|));
              && r.value == DiffOf(Entries(parse(file.value.text).doc), AnimeIndex(dbAnimes.value), StatusIndex(dbList.value))
              && (insertLog(scan) ==> log' == log + [scan])
              && (!insertLog(scan) ==> log' == log)
  {
    if file.None? {
      return Err("No file uploaded"), log;
    }
    var f := file.value;
    if f.size > MaxFileSize {
      return Err("File too large"), log;
    }
    var json := parse(f.text);
    if json.NotJson? {
      return Err("Invalid JSON or parsing error"), log;
    }
    if dbAnimes.None? || dbList.None? {
      return Err("Database fetch failed"), log;
    }
    if json.NotAnExport? {
      return Err("Invalid JSON or parsing error"), log;
    }
    var diffs := CalculateDiff(json.doc, dbAnimes.value, dbList.value);
    log' := Insert(log, LogEntry(ImportScan, "Scanned " + f.name + ". Found " + Show(|diffs|) + " changes.", DiffCount(|diffs|)), insertLog);
    r := Ok(diffs);
  }
}
