/**
 * The one-off ingestion script: clear the list table, build a first-wins work queue from the
 * export, then fetch the catalog in batches of 50 ids and upsert a row and a list entry per
 * title, counting successes and errors.
 */
module IngestData {
  import opened Base
  import opened Dates
  import opened WatchStatus
  import opened AniListId
  import opened ImportData
  import opened Catalog
  import opened Chunking
  import opened DiffEngine
  import ImportAction

  /** `BATCH_SIZE`: the page size of the catalog query. */
  const BatchSize: nat := 50

  /** `{ alId, userStatus }`. */
  datatype WorkItem = WorkItem(alId: nat, userStatus: Status)

  /** `{ anime_id, status }` as sent to the list table. */
  datatype ListWrite = ListWrite(animeId: int, status: Status)

  /**
   * The counters and the upserts attempted so far, in order. A row is recorded when its
   * upsert is attempted, whatever the database answers.
   */
  datatype Tally = Tally(success: nat, errors: nat, animeWrites: seq<AnimeRow>, listWrites: seq<ListWrite>)

  /** The catalog query by id list, and the error (if any) each upsert reports. */
  datatype IngestBackend = IngestBackend(
    fetch: seq<nat> -> Option<seq<Media>>,
    upsertAnime: AnimeRow -> Option<string>,
    upsertList: ListWrite -> Option<string>)

  // ----- Clearing the list -----

  /**
   * `delete().neq('anime_id', 0)`: every list row except those with id 0 goes; a failed delete
   * is only reported. This step stands alone: the queue and the batches never read the list
   * table, they only upsert into it.
   */
  function ClearList(rows: seq<ListRow>, failure: Option<string>): (r: seq<ListRow>)
    ensures failure.Some? ==> r == rows
    ensures forall row :: row in r ==> row in rows
    ensures failure.None? ==> forall i :: 0 <= i < |r| ==> r[i].animeId == 0
    ensures failure.None? ==> forall row :: row in rows && row.animeId == 0 ==> row in r
    ensures |r| <= |rows|
  {
    if failure.Some? || |rows| == 0 then rows
    else
      var rest := ClearList(rows[1..], failure);
      assert forall row :: row in rows && row != rows[0] ==> row in rows[1..];
      if rows[0].animeId == 0 then [rows[0]] + rest else rest
  }

  // ----- Work queue: first category wins -----

  /** The work queue: each resolved id once, with the status of its first record (unknown labels give UNKNOWN). */
  function WorkQueue(es: seq<Entry>): seq<WorkItem> {
    if |es| == 0 then []
    else
      var n := |es| - 1;
      var prev := WorkQueue(es[..n]);
      match IdOf(es[n])
      case None => prev
      case Some(id) => if id in IdsOf(es[..n]) then prev else prev + [WorkItem(id, MapStatus(es[n].key))]
  }

  /**
   * The work queue is the diff against empty snapshots: the same ids in the same order, every
   * one of them NEW, with the same statuses. The script and the diff engine share one
   * de-duplication policy.
   */
  lemma {:induction false} WorkQueueIsFreshDiff(es: seq<Entry>)
    ensures var q := WorkQueue(es);
      var d := DiffOf(es, map[], map[]);
      |q| == |d| && forall i :: 0 <= i < |q| ==> d[i].kind == New && d[i].id == q[i].alId && d[i].newStatus == Some(q[i].userStatus)
  {
    if |es| > 0 {
      WorkQueueIsFreshDiff(es[..|es| - 1]);
      DiffOfStep(es, map[], map[]);
    }
  }

  /**
   * First wins: the queue holds each id once, every id some record resolves to is in it with
   * the status of that id's first record, and it holds no other id (and never 0).
   */
  lemma WorkQueueFirstWins(es: seq<Entry>)
    ensures var q := WorkQueue(es);
      && (forall i, j :: 0 <= i < j < |q| ==> q[i].alId != q[j].alId)
      && (forall i :: 0 <= i < |q| ==> q[i].alId in IdsOf(es) && q[i].alId > 0)
      && (forall id :: id in IdsOf(es) ==>
            exists i :: 0 <= i < |q| && q[i].alId == id && q[i].userStatus == MapStatus(es[FirstPos(es, id)].key))
  {
    var q := WorkQueue(es);
    var d := DiffOf(es, map[], map[]);
    WorkQueueIsFreshDiff(es);
    DiffIdsUnique(es, map[], map[]);
    DiffKinds(es, map[], map[]);
    forall id | id in IdsOf(es)
      ensures exists i :: 0 <= i < |q| && q[i].alId == id && q[i].userStatus == MapStatus(es[FirstPos(es, id)].key)
    {
      DiffNewEntry(es, map[], map[], id);
      var i :| 0 <= i < |d| && d[i].id == id;
      assert q[i].alId == id;
    }
  }

  // ----- Row mapping -----

  /**
   * The row the script upserts: English title falling back to romaji, the extra-large cover
   * only, strict dates, and the studio names. None when the catalog sent no studio list, where
   * the script's `studios.nodes.map` throws.
   */
  function IngestRow(m: Media): (r: Option<AnimeRow>)
    ensures r.Some? <==> m.studios.Some?
    ensures r.Some? ==> r.value.id == m.id && r.value.titleRomaji == m.title.romaji
    ensures r.Some? ==> r.value.studios == m.studios.value && r.value.details == m.details
    ensures r.Some? ==> r.value.coverImage == m.coverImage.extraLarge
    ensures r.Some? ==> (Filled(r.value.titleEnglish) <==> Filled(m.title.english) || m.title.romaji != "")
    ensures r.Some? && Filled(m.title.english) ==> r.value.titleEnglish == m.title.english
    ensures r.Some? && !Filled(m.title.english) ==> r.value.titleEnglish == Some(m.title.romaji)
    ensures r.Some? ==> (r.value.startDate.Some? <==>
                           (m.startDate.Some? && Given(m.startDate.value.year)
                            && Given(m.startDate.value.month) && Given(m.startDate.value.day)))
    ensures r.Some? ==> (r.value.endDate.Some? <==>
                           (m.endDate.Some? && Given(m.endDate.value.year)
                            && Given(m.endDate.value.month) && Given(m.endDate.value.day)))
    ensures r.Some? ==> r.value.titleNative.None? && r.value.release.None? && r.value.isAdult.None?
    ensures r.Some? ==> r.value.ustatus.None? && r.value.relations == []
  {
    match m.studios
    case None => None
    case Some(names) =>
      Some(AnimeRow(
        m.id,
        m.title.romaji,
        Some(OrTitle(m.title.english, m.title.romaji)),
        None,
        m.coverImage.extraLarge,
        FormatDateStrict(m.startDate),
        FormatDateStrict(m.endDate),
        names,
        m.details,
        None,
        None,
        None,
        []))
  }

  /**
   * The script's row is the import action's row with four columns changed: no native title,
   * the extra-large cover with no fallback, strict dates, and no release fields. Where the
   * strict policy gives a date, both rows carry the same date.
   */
  lemma IngestRowIsStrictRichRow(m: Media)
    requires m.studios.Some?
    ensures var rich := ImportAction.RichRow(m);
      IngestRow(m) == Some(rich.(titleNative := None, coverImage := m.coverImage.extraLarge,
                                 startDate := FormatDateStrict(m.startDate), endDate := FormatDateStrict(m.endDate),
                                 release := None))
    ensures var rich := ImportAction.RichRow(m);
      (IngestRow(m).value.startDate.Some? ==> IngestRow(m).value.startDate == rich.startDate)
      && (IngestRow(m).value.endDate.Some? ==> IngestRow(m).value.endDate == rich.endDate)
  {
    StrictAndDefaultingDates(m.startDate);
    StrictAndDefaultingDates(m.endDate);
  }

  // ----- One batch -----

  /** `chunk.find(w => w.alId === media.id)`: the first work item of the batch with that id. */
  function FindWork(chunk: seq<WorkItem>, id: int): (r: Option<WorkItem>)
    ensures r.Some? ==> r.value in chunk && r.value.alId == id
    ensures r.None? <==> forall i :: 0 <= i < |chunk| ==> chunk[i].alId != id
  {
    if |chunk| == 0 then None
    else if chunk[0].alId == id then Some(chunk[0])
    else
      var r := FindWork(chunk[1..], id);
      assert forall i :: 1 <= i < |chunk| ==> chunk[i] == chunk[1..][i - 1];
      r
  }

  /**
   * One media item of a response. A title not in the batch is skipped; a missing studio list
   * throws (None); otherwise the row upsert is attempted, and only when it succeeds the list
   * upsert is attempted; success is counted only when both succeed.
   */
  function MediaStep(m: Media, chunk: seq<WorkItem>, b: IngestBackend, t: Tally): Option<Tally> {
    match FindWork(chunk, m.id)
    case None => Some(t)
    case Some(w) =>
      match IngestRow(m)
      case None => None
      case Some(row) =>
        var attempted := t.(animeWrites := t.animeWrites + [row]);
        if b.upsertAnime(row).Some? then
          Some(attempted.(errors := attempted.errors + 1))
        else
          var entry := ListWrite(m.id, w.userStatus);
          var listed := attempted.(listWrites := attempted.listWrites + [entry]);
          if b.upsertList(entry).Some? then Some(listed.(errors := listed.errors + 1))
          else Some(listed.(success := listed.success + 1))
  }

  /** The media loop of one batch; the flag says whether it stopped on a thrown error. */
  function MediaLoop(ms: seq<Media>, chunk: seq<WorkItem>, b: IngestBackend, t: Tally): (Tally, bool) {
    if |ms| == 0 then (t, false)
    else
      var (prev, threw) := MediaLoop(ms[..|ms| - 1], chunk, b, t);
      if threw then (prev, true)
      else
        match MediaStep(ms[|ms| - 1], chunk, b, prev)
        case None => (prev, true)
        case Some(next) => (next, false)
  }

  function Ids(chunk: seq<WorkItem>): (ids: seq<nat>)
    ensures |ids| == |chunk| && forall i :: 0 <= i < |chunk| ==> ids[i] == chunk[i].alId
  {
    seq(|chunk|, i requires 0 <= i < |chunk| => chunk[i].alId)
  }

  /** One batch: query its ids; a failed query or a thrown error charges every id of the batch as an error. */
  function BatchStep(chunk: seq<WorkItem>, b: IngestBackend, t: Tally): Tally {
    match b.fetch(Ids(chunk))
    case None => t.(errors := t.errors + |chunk|)
    case Some(ms) =>
      var (next, threw) := MediaLoop(ms, chunk, b, t);
      if threw then next.(errors := next.errors + |chunk|) else next
  }

  /** The batches in order. */
  function IngestAll(batches: seq<seq<WorkItem>>, b: IngestBackend, t: Tally): Tally {
    if |batches| == 0 then t else BatchStep(batches[|batches| - 1], b, IngestAll(batches[..|batches| - 1], b, t))
  }

  lemma IngestAllSnoc(batches: seq<seq<WorkItem>>, k: nat, b: IngestBackend)
    requires k < |batches|
    ensures IngestAll(batches[..k + 1], b, Tally(0, 0, [], []))
         == BatchStep(batches[k], b, IngestAll(batches[..k], b, Tally(0, 0, [], [])))
  {
    assert batches[..k + 1][..k] == batches[..k];
  }

  // ----- What the counters mean -----

  /**
   * The bookkeeping every step keeps: successes never exceed the list upserts attempted, which
   * never exceed the row upserts attempted, and every attempted row upsert is accounted for by
   * a success or an error; every upsert names an id of the queue, and every list upsert carries
   * that item's status.
   */
  ghost predicate Accounted(t: Tally, queue: seq<WorkItem>) {
    && t.success <= |t.listWrites| <= |t.animeWrites| <= t.success + t.errors
    && WritesFromQueue(t.animeWrites, t.listWrites, queue)
  }

  ghost predicate WritesFromQueue(rows: seq<AnimeRow>, entries: seq<ListWrite>, queue: seq<WorkItem>) {
    && (forall i :: 0 <= i < |entries| ==> exists w :: w in queue && w.alId == entries[i].animeId && w.userStatus == entries[i].status)
    && (forall i :: 0 <= i < |rows| ==> exists w :: w in queue && w.alId == rows[i].id)
  }

  lemma MediaStepAccounted(m: Media, chunk: seq<WorkItem>, b: IngestBackend, t: Tally, queue: seq<WorkItem>)
    requires Accounted(t, queue) && forall w :: w in chunk ==> w in queue
    ensures MediaStep(m, chunk, b, t).Some? ==> Accounted(MediaStep(m, chunk, b, t).value, queue)
  {
    match FindWork(chunk, m.id)
    case None =>
    case Some(w) =>
      match IngestRow(m)
      case None =>
      case Some(row) =>
        var t' := MediaStep(m, chunk, b, t).value;
        assert t'.animeWrites == t.animeWrites + [row];
        assert w in queue && w.alId == row.id;
        if b.upsertAnime(row).None? {
          assert t'.listWrites == t.listWrites + [ListWrite(m.id, w.userStatus)];
        }
  }

  lemma {:induction false} MediaLoopAccounted(ms: seq<Media>, chunk: seq<WorkItem>, b: IngestBackend, t: Tally, queue: seq<WorkItem>)
    requires Accounted(t, queue) && forall w :: w in chunk ==> w in queue
    ensures Accounted(MediaLoop(ms, chunk, b, t).0, queue)
  {
    if |ms| > 0 {
      MediaLoopAccounted(ms[..|ms| - 1], chunk, b, t, queue);
      var (prev, threw) := MediaLoop(ms[..|ms| - 1], chunk, b, t);
      if !threw {
        MediaStepAccounted(ms[|ms| - 1], chunk, b, prev, queue);
      }
    }
  }

  lemma BatchStepAccounted(chunk: seq<WorkItem>, b: IngestBackend, t: Tally, queue: seq<WorkItem>)
    requires Accounted(t, queue) && forall w :: w in chunk ==> w in queue
    ensures Accounted(BatchStep(chunk, b, t), queue)
  {
    if b.fetch(Ids(chunk)).Some? {
      MediaLoopAccounted(b.fetch(Ids(chunk)).value, chunk, b, t, queue);
      var next := MediaLoop(b.fetch(Ids(chunk)).value, chunk, b, t).0;
      assert WritesFromQueue(next.animeWrites, next.listWrites, queue);
    }
  }

  /** Every element of a batch is an element of the queue. */
  lemma ChunkMembers(queue: seq<WorkItem>, k: nat)
    requires k < |Chunks(queue, BatchSize)|
    ensures forall w :: w in Chunks(queue, BatchSize)[k] ==> w in queue
  {
    ChunkIsSlice(queue, BatchSize, k);
  }

  lemma {:induction false} IngestAllAccounted(batches: seq<seq<WorkItem>>, b: IngestBackend, t: Tally, queue: seq<WorkItem>)
    requires Accounted(t, queue)
    requires forall k, w :: 0 <= k < |batches| && w in batches[k] ==> w in queue
    ensures Accounted(IngestAll(batches, b, t), queue)
  {
    if |batches| > 0 {
      var n := |batches| - 1;
      IngestAllAccounted(batches[..n], b, t, queue);
      BatchStepAccounted(batches[n], b, IngestAll(batches[..n], b, t), queue);
    }
  }

  /**
   * The whole run is accounted for: every counted success is a list upsert, every list upsert
   * follows a row upsert, every row upsert is a success or an error, and every upsert is for
   * an item of the queue, the list ones with that item's status.
   */
  lemma IngestAccounted(queue: seq<WorkItem>, b: IngestBackend)
    ensures Accounted(IngestAll(Chunks(queue, BatchSize), b, Tally(0, 0, [], [])), queue)
  {
    var batches := Chunks(queue, BatchSize);
    forall k, w | 0 <= k < |batches| && w in batches[k]
      ensures w in queue
    {
      ChunkMembers(queue, k);
    }
    IngestAllAccounted(batches, b, Tally(0, 0, [], []), queue);
  }

  /** A media item whose id is not in the batch changes nothing. */
  lemma ForeignMediaSkipped(m: Media, chunk: seq<WorkItem>, b: IngestBackend, t: Tally)
    requires forall i :: 0 <= i < |chunk| ==> chunk[i].alId != m.id
    ensures MediaStep(m, chunk, b, t) == Some(t)
  {
  }

  /**
   * A success is counted only when both upserts went through; a failed row upsert is an error
   * and no list upsert is attempted for it.
   */
  lemma MediaStepCounts(m: Media, chunk: seq<WorkItem>, b: IngestBackend, t: Tally)
    requires MediaStep(m, chunk, b, t).Some?
    ensures var t' := MediaStep(m, chunk, b, t).value;
      && t'.success + t'.errors <= t.success + t.errors + 1
      && (t'.success == t.success + 1 ==>
            exists w :: w in chunk && w.alId == m.id && IngestRow(m).Some?
              && b.upsertAnime(IngestRow(m).value).None? && b.upsertList(ListWrite(m.id, w.userStatus)).None?)
      && (IngestRow(m).Some? && b.upsertAnime(IngestRow(m).value).Some? ==> t'.listWrites == t.listWrites)
  {
  }

  /** The batch threw or its query failed. */
  predicate BatchFailed(chunk: seq<WorkItem>, b: IngestBackend, t: Tally) {
    b.fetch(Ids(chunk)).None? || MediaLoop(b.fetch(Ids(chunk)).value, chunk, b, t).1
  }

  lemma {:induction false} MediaLoopCounts(ms: seq<Media>, chunk: seq<WorkItem>, b: IngestBackend, t: Tally)
    ensures var t' := MediaLoop(ms, chunk, b, t).0;
      t'.success + t'.errors - (t.success + t.errors) == |t'.animeWrites| - |t.animeWrites|
      && t.success <= t'.success && t.errors <= t'.errors
      && t'.animeWrites[..|t.animeWrites|] == t.animeWrites
  {
    if |ms| > 0 {
      MediaLoopCounts(ms[..|ms| - 1], chunk, b, t);
    }
  }

  /**
   * Each batch adds one to the counters for every row upsert it attempted, plus the size of the
   * batch when its query failed or it threw; counters never go down.
   */
  lemma BatchCounts(chunk: seq<WorkItem>, b: IngestBackend, t: Tally)
    ensures var t' := BatchStep(chunk, b, t);
      && t'.success + t'.errors - (t.success + t.errors)
         == |t'.animeWrites| - |t.animeWrites| + (if BatchFailed(chunk, b, t) then |chunk| else 0)
      && t.success <= t'.success && t.errors <= t'.errors
  {
    if b.fetch(Ids(chunk)).Some? {
      MediaLoopCounts(b.fetch(Ids(chunk)).value, chunk, b, t);
    }
  }

  // ----- A backend on which nothing fails -----

  ghost predicate Smooth(b: IngestBackend) {
    && (forall ids :: b.fetch(ids).Some?)
    && (forall ids, i :: b.fetch(ids).Some? && 0 <= i < |b.fetch(ids).value| ==> b.fetch(ids).value[i].studios.Some?)
    && (forall row :: b.upsertAnime(row).None?)
    && (forall entry :: b.upsertList(entry).None?)
  }

  lemma {:induction false} SmoothMediaLoop(ms: seq<Media>, chunk: seq<WorkItem>, b: IngestBackend, t: Tally)
    requires Smooth(b) && forall i :: 0 <= i < |ms| ==> ms[i].studios.Some?
    requires t.errors == 0 && t.success == |t.listWrites| == |t.animeWrites|
    ensures var (t', threw) := MediaLoop(ms, chunk, b, t);
      !threw && t'.errors == 0 && t'.success == |t'.listWrites| == |t'.animeWrites|
  {
    if |ms| > 0 {
      var n := |ms| - 1;
      SmoothMediaLoop(ms[..n], chunk, b, t);
      var prev := MediaLoop(ms[..n], chunk, b, t).0;
      match FindWork(chunk, ms[n].id)
      case None =>
      case Some(w) =>
        var row := IngestRow(ms[n]).value;
        assert b.upsertAnime(row).None?;
        assert b.upsertList(ListWrite(ms[n].id, w.userStatus)).None?;
    }
  }

  /** With nothing failing, no error is counted and every attempted pair of upserts is a success. */
  lemma {:induction false} SmoothRunHasNoErrors(batches: seq<seq<WorkItem>>, b: IngestBackend)
    requires Smooth(b)
    ensures var t := IngestAll(batches, b, Tally(0, 0, [], []));
      t.errors == 0 && t.success == |t.listWrites| == |t.animeWrites|
  {
    if |batches| > 0 {
      var n := |batches| - 1;
      SmoothRunHasNoErrors(batches[..n], b);
      var prev := IngestAll(batches[..n], b, Tally(0, 0, [], []));
      var ms := b.fetch(Ids(batches[n])).value;
      SmoothMediaLoop(ms, batches[n], b, prev);
    }
  }

  /** The id lists of a sequence of batches. */
  function BatchIds(batches: seq<seq<WorkItem>>): (r: seq<seq<nat>>)
    ensures |r| == |batches| && forall k :: 0 <= k < |batches| ==> r[k] == Ids(batches[k])
  {
    seq(|batches|, k requires 0 <= k < |batches| => Ids(batches[k]))
  }

  /** The id lists sent to the catalog, laid end to end, are the queue's ids in queue order: each id is requested once. */
  lemma {:induction false} RequestsCoverQueue(batches: seq<seq<WorkItem>>)
    ensures Concat(BatchIds(batches)) == Ids(Concat(batches))
  {
    if |batches| > 0 {
      var n := |batches| - 1;
      RequestsCoverQueue(batches[..n]);
      assert BatchIds(batches)[..n] == BatchIds(batches[..n]);
      assert Ids(Concat(batches)) == Ids(Concat(batches[..n])) + Ids(batches[n]);
    }
  }

  // ----- The script as written -----

  /** Step 2 of the script: the nested loop over categories and their records, with a "processed" set. */
  method BuildWorkQueue(doc: ImportDocument) returns (queue: seq<WorkItem>)
    ensures queue == WorkQueue(Entries(doc))
  {
    queue := [];
    var processed: set<nat> := {};
    ghost var visited: seq<Entry> := [];
    var c := 0;
    while c < |doc|
      invariant 0 <= c <= |doc|
      invariant visited == Entries(doc[..c])
      invariant processed == IdsOf(visited) && queue == WorkQueue(visited)
    {
      EntriesStep(doc, c);
      processed, queue := QueueCategory(doc[c], visited, processed, queue);
      visited := visited + CategoryEntries(doc[c]);
      c := c + 1;
    }
    assert doc[..c] == doc;
  }

  /** The outer loop's body: the records of one category, in order. */
  method QueueCategory(category: Category, ghost visited: seq<Entry>, processed: set<nat>, queue: seq<WorkItem>)
    returns (processed': set<nat>, queue': seq<WorkItem>)
    requires processed == IdsOf(visited) && queue == WorkQueue(visited)
    ensures processed' == IdsOf(visited + CategoryEntries(category))
    ensures queue' == WorkQueue(visited + CategoryEntries(category))
  {
    var status := MapStatus(category.key);
    ghost var es := CategoryEntries(category);
    ghost var seen := visited;
    assert visited + es[..0] == seen;
    processed', queue' := processed, queue;
    var j := 0;
    while j < |category.items|
      invariant 0 <= j <= |category.items|
      invariant seen == visited + es[..j]
      invariant processed' == IdsOf(seen) && queue' == WorkQueue(seen)
    {
      var e := Entry(category.key, category.items[j]);
      AppendOne(visited, es, j);
      processed', queue' := QueueRecord(e, status, seen, processed', queue');
      seen := seen + [e];
      j := j + 1;
    }
    assert es[..|category.items|] == es;
  }

  /** The inner loop's body: queue a record's id unless it is unresolved or already queued. */
  method QueueRecord(e: Entry, status: Status, ghost seen: seq<Entry>, processed: set<nat>, queue: seq<WorkItem>)
    returns (processed': set<nat>, queue': seq<WorkItem>)
    requires status == MapStatus(e.key)
    requires processed == IdsOf(seen) && queue == WorkQueue(seen)
    ensures processed' == IdsOf(seen + [e]) && queue' == WorkQueue(seen + [e])
  {
    assert (seen + [e])[..|seen|] == seen;
    processed', queue' := processed, queue;
    var alId := ResolvedId(e.record.al);
    if alId.Some? && alId.value !in processed {
      queue' := queue + [WorkItem(alId.value, status)];
      processed' := processed + {alId.value};
    }
  }

  /** Step 3 of the script: `for (i = 0; i < queue.length; i += BATCH_SIZE)` over `queue.slice(i, i + BATCH_SIZE)`. */
  method IngestBatches(queue: seq<WorkItem>, b: IngestBackend) returns (t: Tally, requests: seq<seq<nat>>)
    ensures t == IngestAll(Chunks(queue, BatchSize), b, Tally(0, 0, [], []))
    ensures |requests| == |Chunks(queue, BatchSize)|
    ensures forall k :: 0 <= k < |requests| ==> requests[k] == Ids(Chunks(queue, BatchSize)[k])
    ensures Concat(requests) == Ids(queue)
    ensures forall k :: 0 <= k < |requests| ==> 0 < |requests[k]| <= BatchSize
  {
    ghost var chunks := Chunks(queue, BatchSize);
    ChunkCount(queue, BatchSize);
    t := Tally(0, 0, [], []);
    requests := [];
    var i := 0;
    ghost var k := 0;
    while i < |queue|
      invariant 0 <= k <= |chunks| && i == k * BatchSize
      invariant k < |chunks| <==> i < |queue|
      invariant t == IngestAll(chunks[..k], b, Tally(0, 0, [], []))
      invariant |requests| == k && forall j :: 0 <= j < k ==> requests[j] == Ids(chunks[j])
    {
      ChunkIsSlice(queue, BatchSize, k);
      var chunk := queue[i..Min(i + BatchSize, |queue|)];
      assert chunk == chunks[k];
      var ids := Ids(chunk);
      IngestAllSnoc(chunks, k, b);
      t := ProcessBatch(chunk, ids, b, t);
      requests := requests + [ids];
      i := i + BatchSize;
      k := k + 1;
    }
    assert chunks[..k] == chunks;
    assert requests == BatchIds(chunks);
    RequestsCoverQueue(chunks);
  }

  /** The body of the batch loop: one query, then the media loop, which stops at the first thrown error. */
  method ProcessBatch(chunk: seq<WorkItem>, ids: seq<nat>, b: IngestBackend, t: Tally) returns (t': Tally)
    requires ids == Ids(chunk)
    ensures t' == BatchStep(chunk, b, t)
  {
    var response := b.fetch(ids);
    if response.None? {
      return t.(errors := t.errors + |ids|);
    }
    var ms := response.value;
    t' := t;
    var j := 0;
    while j < |ms|
      invariant 0 <= j <= |ms|
      invariant MediaLoop(ms[..j], chunk, b, t) == (t', false)
    {
      assert ms[..j + 1][..j] == ms[..j];
      var step := MediaStep(ms[j], chunk, b, t');
      if step.None? {
        MediaLoopStops(ms, chunk, b, t, j + 1);
        return t'.(errors := t'.errors + |ids|);
      }
      t' := step.value;
      j := j + 1;
    }
    assert ms[..j] == ms;
  }

  /** Once the media loop has thrown, the rest of the response is never looked at. */
  lemma {:induction false} MediaLoopStops(ms: seq<Media>, chunk: seq<WorkItem>, b: IngestBackend, t: Tally, p: nat)
    requires p <= |ms| && MediaLoop(ms[..p], chunk, b, t).1
    ensures MediaLoop(ms, chunk, b, t) == MediaLoop(ms[..p], chunk, b, t)
    decreases |ms| - p
  {
    if p < |ms| {
      var n := |ms| - 1;
      assert ms[..n][..p] == ms[..p];
      MediaLoopStops(ms[..n], chunk, b, t, p);
    } else {
      assert ms[..p] == ms;
    }
  }
}
