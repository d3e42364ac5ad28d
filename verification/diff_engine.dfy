/**
 * `calculateDiff`: classifies each record of an import document against snapshots of the
 * `animes` and `user_anime_lists` tables as NEW, STATUS_CHANGE, or nothing.
 */
module DiffEngine {
  import opened Base
  import opened WatchStatus
  import opened AniListId
  import opened ImportData
  import opened Catalog

  /** `ChangeType`. UPDATE and NO_CHANGE exist in the type but the engine never produces them. */
  datatype ChangeType = New | Update | StatusChange | NoChange

  /** `newData`: only the bare id for a new title, the stored row for a status change. */
  datatype Payload = IdOnly(id: nat) | FullRow(row: AnimeRow)

  /** `DiffItem`. */
  datatype DiffItem = DiffItem(
    id: nat,
    kind: ChangeType,
    title: string,
    changes: seq<string>,
    newData: Payload,
    newStatus: Option<Status>)

  /** A `{ anime_id, status }` row of the list snapshot; the status column may hold null. */
  datatype ListRow = ListRow(animeId: int, status: Option<Status>)

  // ----- Snapshot indexes: `new Map()` filled by `forEach(set)`, so the last row per key wins -----

  /** No row after `k` carries the key of row `k`. */
  predicate LastKeyAt<T>(rows: seq<T>, key: T -> int, k: int) {
    0 <= k < |rows| && forall j :: k < j < |rows| ==> key(rows[j]) != key(rows[k])
  }

  /** A map from key to row where, for a repeated key, the last row is kept. */
  function IndexLastWins<T>(rows: seq<T>, key: T -> int): (m: map<int, T>)
    ensures forall k :: 0 <= k < |rows| ==> key(rows[k]) in m
    ensures forall id :: id in m ==> exists k :: LastKeyAt(rows, key, k) && key(rows[k]) == id && m[id] == rows[k]
  {
    if |rows| == 0 then map[]
    else
      var n := |rows| - 1;
      var prev := IndexLastWins(rows[..n], key);
      IndexLastWinsStep(rows, key, rows[..n], prev);
      prev[key(rows[n]) := rows[n]]
  }

  lemma IndexLastWinsStep<T>(rows: seq<T>, key: T -> int, front: seq<T>, prev: map<int, T>)
    requires |rows| > 0 && front == rows[..|rows| - 1]
    requires forall k :: 0 <= k < |front| ==> key(front[k]) in prev
    requires forall id :: id in prev ==> exists k :: LastKeyAt(front, key, k) && key(front[k]) == id && prev[id] == front[k]
    ensures var m := prev[key(rows[|rows| - 1]) := rows[|rows| - 1]];
      && (forall k :: 0 <= k < |rows| ==> key(rows[k]) in m)
      && (forall id :: id in m ==> exists k :: LastKeyAt(rows, key, k) && key(rows[k]) == id && m[id] == rows[k])
  {
    var n := |rows| - 1;
    var m := prev[key(rows[n]) := rows[n]];
    forall k | 0 <= k < |rows|
      ensures key(rows[k]) in m
    {
      if k < n {
        assert front[k] == rows[k];
      }
    }
    forall id | id in m
      ensures exists k :: LastKeyAt(rows, key, k) && key(rows[k]) == id && m[id] == rows[k]
    {
      if id == key(rows[n]) {
        assert LastKeyAt(rows, key, n);
      } else {
        var k :| LastKeyAt(front, key, k) && key(front[k]) == id && prev[id] == front[k];
        assert front[k] == rows[k];
        assert LastKeyAt(rows, key, k);
      }
    }
  }

  /** `dbAnimeMap`. */
  function AnimeIndex(rows: seq<AnimeRow>): map<int, AnimeRow> {
    IndexLastWins(rows, (r: AnimeRow) => r.id)
  }

  /** `dbListMap`: for a repeated `anime_id` the status of the last row is the one consulted. */
  function StatusIndex(rows: seq<ListRow>): (m: map<int, Option<Status>>)
    ensures forall id :: id in m <==> exists k :: 0 <= k < |rows| && rows[k].animeId == id
    ensures forall id :: id in m ==>
              exists k :: 0 <= k < |rows| && rows[k].animeId == id && m[id] == rows[k].status
                && forall j :: k < j < |rows| ==> rows[j].animeId != id
  {
    var byId := IndexLastWins(rows, (r: ListRow) => r.animeId);
    map id | id in byId :: byId[id].status
  }

  lemma AnimeIndexStep(rows: seq<AnimeRow>, i: nat)
    requires i < |rows|
    ensures AnimeIndex(rows[..i + 1]) == AnimeIndex(rows[..i])[rows[i].id := rows[i]]
  {
    assert rows[..i + 1][..i] == rows[..i];
  }

  lemma StatusIndexStep(rows: seq<ListRow>, i: nat)
    requires i < |rows|
    ensures StatusIndex(rows[..i + 1]) == StatusIndex(rows[..i])[rows[i].animeId := rows[i].status]
  {
    assert rows[..i + 1][..i] == rows[..i];
  }

  // ----- Classification of one record -----

  /** The record for a title the store has never seen. */
  function NewItem(id: nat, e: Entry): DiffItem {
    DiffItem(id, New, e.record.name, ["New Entry"], IdOnly(id), Some(MapStatus(e.key)))
  }

  /** The record for a stored title whose listed status differs from the imported one. */
  function StatusChangeItem(id: nat, row: AnimeRow, previous: Status, status: Status): DiffItem {
    DiffItem(id, StatusChange, DisplayTitle(row),
             ["Status: " + StatusName(previous) + " -> " + StatusName(status)], FullRow(row), Some(status))
  }

  /** What the engine emits for the first record that resolves to `id`. */
  function Classify(id: nat, e: Entry, animes: map<int, AnimeRow>, list: map<int, Option<Status>>): (r: Option<DiffItem>)
    ensures r.Some? <==> id !in animes || (id in list && list[id].Some? && list[id].value != MapStatus(e.key))
    ensures r.Some? ==> r.value.id == id && r.value.newStatus == Some(MapStatus(e.key))
    ensures r.Some? ==> (r.value.kind == New <==> id !in animes) && r.value.kind in {New, StatusChange}
  {
    var status := MapStatus(e.key);
    if id !in animes then Some(NewItem(id, e))
    else if id in list && list[id].Some? && list[id].value != status then
      Some(StatusChangeItem(id, animes[id], list[id].value, status))
    else None
  }

  /**
   * Reference definition of the diff, without the running "seen" set: each record that is
   * the first to resolve to its id is classified; every other record contributes nothing.
   */
  function DiffOf(es: seq<Entry>, animes: map<int, AnimeRow>, list: map<int, Option<Status>>): (r: seq<DiffItem>)
    ensures |r| <= |es|
  {
    if |es| == 0 then []
    else
      var prev := DiffOf(es[..|es| - 1], animes, list);
      match IdOf(es[|es| - 1])
      case None => prev
      case Some(id) =>
        if id in IdsOf(es[..|es| - 1]) then prev
        else
          match Classify(id, es[|es| - 1], animes, list)
          case None => prev
          case Some(item) => prev + [item]
  }

  /** The position of the first record that resolves to `id`. */
  function FirstPos(es: seq<Entry>, id: nat): (k: nat)
    requires id in IdsOf(es)
    ensures FirstOccurrence(es, k) && IdOf(es[k]) == Some(id)
  {
    var n := |es| - 1;
    if id in IdsOf(es[..n]) then
      var k := FirstPos(es[..n], id);
      assert es[..n][..k] == es[..k];
      k
    else
      n
  }

  /** A first occurrence of an id is the one `FirstPos` finds. */
  lemma {:induction false} FirstPosUnique(es: seq<Entry>, k: nat)
    requires FirstOccurrence(es, k)
    ensures IdOf(es[k]).value in IdsOf(es) && FirstPos(es, IdOf(es[k]).value) == k
  {
    var n := |es| - 1;
    if k < n {
      FrontFirstOccurrence(es, k);
      FirstPosUnique(es[..n], k);
      FirstPosOfFront(es, IdOf(es[k]).value);
    } else {
      FirstPosAtEnd(es);
    }
  }

  lemma FirstPosAtEnd(es: seq<Entry>)
    requires FirstOccurrence(es, |es| - 1)
    ensures IdOf(es[|es| - 1]).value in IdsOf(es) && FirstPos(es, IdOf(es[|es| - 1]).value) == |es| - 1
  {
  }

  lemma FirstPosOfFront(es: seq<Entry>, id: nat)
    requires |es| > 0 && id in IdsOf(es[..|es| - 1])
    ensures id in IdsOf(es) && FirstPos(es, id) == FirstPos(es[..|es| - 1], id)
  {
  }

  lemma FrontFirstOccurrence(es: seq<Entry>, k: nat)
    requires FirstOccurrence(es, k) && k < |es| - 1
    ensures FirstOccurrence(es[..|es| - 1], k) && es[..|es| - 1][k] == es[k]
  {
    assert es[..|es| - 1][..k] == es[..k];
  }

  /** Appending an entry either leaves the diff alone or appends the classification of a new id's first record. */
  lemma DiffOfStep(es: seq<Entry>, animes: map<int, AnimeRow>, list: map<int, Option<Status>>)
    requires |es| > 0
    ensures var n := |es| - 1;
      var front := es[..n];
      var prev := DiffOf(front, animes, list);
      var r := DiffOf(es, animes, list);
      if IdOf(es[n]).Some? && IdOf(es[n]).value !in IdsOf(front) then
        && IdsOf(es) == IdsOf(front) + {IdOf(es[n]).value}
        && FirstPos(es, IdOf(es[n]).value) == n
        && r == prev + (match Classify(IdOf(es[n]).value, es[n], animes, list)
                        case None => []
                        case Some(item) => [item])
      else
        IdsOf(es) == IdsOf(front) && r == prev
  {
    var n := |es| - 1;
    if IdOf(es[n]).Some? && IdOf(es[n]).value !in IdsOf(es[..n]) {
      assert FirstOccurrence(es, n);
      FirstPosUnique(es, n);
    }
  }

  /** Every emitted record is what `Classify` gives for the first record of its id. */
  lemma {:induction false} DiffItemsClassified(es: seq<Entry>, animes: map<int, AnimeRow>, list: map<int, Option<Status>>)
    ensures var r := DiffOf(es, animes, list);
      forall i :: 0 <= i < |r| ==>
        r[i].id in IdsOf(es) && Classify(r[i].id, es[FirstPos(es, r[i].id)], animes, list) == Some(r[i])
  {
    if |es| > 0 {
      DiffItemsClassified(es[..|es| - 1], animes, list);
      DiffOfStep(es, animes, list);
      FrontIdsKeepFirstPos(es);
    }
  }

  /** `DiffItemsClassified` for the record at one index. */
  lemma DiffItemAt(es: seq<Entry>, animes: map<int, AnimeRow>, list: map<int, Option<Status>>, i: nat)
    requires i < |DiffOf(es, animes, list)|
    ensures var item := DiffOf(es, animes, list)[i];
      item.id in IdsOf(es) && Classify(item.id, es[FirstPos(es, item.id)], animes, list) == Some(item)
  {
    DiffItemsClassified(es, animes, list);
  }

  /** `DiffCoversFirstRecords` for one id: the index of its record. */
  lemma DiffIndexOf(es: seq<Entry>, animes: map<int, AnimeRow>, list: map<int, Option<Status>>, id: nat) returns (i: nat)
    requires id in IdsOf(es) && Classify(id, es[FirstPos(es, id)], animes, list).Some?
    ensures i < |DiffOf(es, animes, list)| && DiffOf(es, animes, list)[i].id == id
  {
    DiffCoversFirstRecords(es, animes, list);
    var r := DiffOf(es, animes, list);
    i :| 0 <= i < |r| && r[i].id == id;
  }

  /** Every first record that classifies to something is emitted. */
  lemma {:induction false} DiffCoversFirstRecords(es: seq<Entry>, animes: map<int, AnimeRow>, list: map<int, Option<Status>>)
    ensures var r := DiffOf(es, animes, list);
      forall id :: id in IdsOf(es) && Classify(id, es[FirstPos(es, id)], animes, list).Some? ==>
        exists i :: 0 <= i < |r| && r[i].id == id
  {
    if |es| > 0 {
      var n := |es| - 1;
      var front := es[..n];
      DiffCoversFirstRecords(front, animes, list);
      DiffOfStep(es, animes, list);
      FrontIdsKeepFirstPos(es);
      var prev := DiffOf(front, animes, list);
      var r := DiffOf(es, animes, list);
      forall id | id in IdsOf(es) && Classify(id, es[FirstPos(es, id)], animes, list).Some?
        ensures exists i :: 0 <= i < |r| && r[i].id == id
      {
        if id in IdsOf(front) {
          var i :| 0 <= i < |prev| && prev[i].id == id;
          assert r[i] == prev[i];
        } else {
          assert r[|prev|].id == id;
        }
      }
    }
  }

  /** Every record is about an id some entry resolves to. */
  predicate IdsFrom(es: seq<Entry>, r: seq<DiffItem>) {
    forall i :: 0 <= i < |r| ==> r[i].id in IdsOf(es)
  }

  /** The position of the first entry of each record's id. */
  ghost function Positions(es: seq<Entry>, r: seq<DiffItem>): (p: seq<nat>)
    requires IdsFrom(es, r)
    ensures |p| == |r| && forall i :: 0 <= i < |r| ==> p[i] == FirstPos(es, r[i].id)
  {
    seq(|r|, i requires 0 <= i < |r| => FirstPos(es, r[i].id))
  }

  predicate Increasing(p: seq<int>) {
    forall i, j :: 0 <= i < j < |p| ==> p[i] < p[j]
  }

  /** The emitted records follow the order of the first records of their ids. */
  lemma {:induction false} DiffItemsOrdered(es: seq<Entry>, animes: map<int, AnimeRow>, list: map<int, Option<Status>>)
    ensures IdsFrom(es, DiffOf(es, animes, list))
    ensures Increasing(Positions(es, DiffOf(es, animes, list)))
  {
    if |es| > 0 {
      DiffItemsOrdered(es[..|es| - 1], animes, list);
      DiffOfGrows(es, animes, list);
      OrderedStep(es, DiffOf(es[..|es| - 1], animes, list), DiffOf(es, animes, list));
    }
  }

  /** Appending an entry adds at most one record, for its id, and only when the id is new. */
  lemma DiffOfGrows(es: seq<Entry>, animes: map<int, AnimeRow>, list: map<int, Option<Status>>)
    requires |es| > 0
    ensures var n := |es| - 1;
      var prev := DiffOf(es[..n], animes, list);
      var r := DiffOf(es, animes, list);
      && prev <= r && |r| <= |prev| + 1
      && (|r| == |prev| + 1 ==> IdOf(es[n]) == Some(r[|prev|].id) && r[|prev|].id !in IdsOf(es[..n]))
  {
  }

  /** One step of `DiffItemsOrdered`, over the records before and after the last entry. */
  lemma OrderedStep(es: seq<Entry>, prev: seq<DiffItem>, r: seq<DiffItem>)
    requires |es| > 0
    requires IdsFrom(es[..|es| - 1], prev) && Increasing(Positions(es[..|es| - 1], prev))
    requires prev <= r && |r| <= |prev| + 1
    requires |r| == |prev| + 1 ==> IdOf(es[|es| - 1]) == Some(r[|prev|].id) && r[|prev|].id !in IdsOf(es[..|es| - 1])
    ensures IdsFrom(es, r) && Increasing(Positions(es, r))
  {
    var n := |es| - 1;
    var front := es[..n];
    assert forall i :: 0 <= i < |prev| ==> r[i] == prev[i];
    forall i | 0 <= i < |r|
      ensures r[i].id in IdsOf(es)
    {
      if i < |prev| {
        FirstPosOfFront(es, prev[i].id);
      } else {
        IdsOfHas(es, n);
      }
    }
    if |r| == |prev| + 1 {
      FirstPosAtEnd(es);
    }
    var p0 := Positions(front, prev);
    var p := Positions(es, r);
    forall i | 0 <= i < |prev|
      ensures p[i] == p0[i] < n
    {
      FirstPosOfFront(es, prev[i].id);
    }
    IncreasingStep(p0, p, n);
  }

  /** Appending a position past all earlier ones keeps a sequence increasing. */
  lemma IncreasingStep(p0: seq<nat>, p: seq<nat>, last: nat)
    requires Increasing(p0)
    requires |p| == |p0| || (|p| == |p0| + 1 && p[|p0|] == last)
    requires forall i :: 0 <= i < |p0| ==> p[i] == p0[i] < last
    ensures Increasing(p)
  {
  }

  /** Ids already present in the front part keep their first position when an entry is appended. */
  lemma FrontIdsKeepFirstPos(es: seq<Entry>)
    requires |es| > 0
    ensures var front := es[..|es| - 1];
      IdsOf(front) <= IdsOf(es)
      && forall id :: id in IdsOf(front) ==>
           FirstPos(es, id) == FirstPos(front, id) && es[FirstPos(es, id)] == front[FirstPos(front, id)]
  {
    var front := es[..|es| - 1];
    forall id | id in IdsOf(front)
      ensures es[FirstPos(front, id)] == front[FirstPos(front, id)]
    {
    }
  }

  /** No id is emitted twice: later records of an id already seen are dropped, not merged. */
  lemma DiffIdsUnique(es: seq<Entry>, animes: map<int, AnimeRow>, list: map<int, Option<Status>>)
    ensures var r := DiffOf(es, animes, list);
      forall i, j :: 0 <= i < j < |r| ==> r[i].id != r[j].id
  {
    DiffItemsOrdered(es, animes, list);
  }

  /** Only NEW and STATUS_CHANGE are produced, and only for ids some record resolves to. */
  lemma DiffKinds(es: seq<Entry>, animes: map<int, AnimeRow>, list: map<int, Option<Status>>)
    ensures var r := DiffOf(es, animes, list);
      forall i :: 0 <= i < |r| ==> r[i].kind in {New, StatusChange} && r[i].id in IdsOf(es) && r[i].id > 0
  {
    var r := DiffOf(es, animes, list);
    forall i | 0 <= i < |r|
      ensures r[i].kind in {New, StatusChange} && r[i].id in IdsOf(es) && r[i].id > 0
    {
      DiffItemAt(es, animes, list, i);
    }
  }

  /**
   * An id missing from the anime snapshot yields exactly one NEW record, named as in the
   * first record of that id, with the bare id as payload and the first category's status.
   */
  lemma DiffNewEntry(es: seq<Entry>, animes: map<int, AnimeRow>, list: map<int, Option<Status>>, id: nat)
    requires id in IdsOf(es) && id !in animes
    ensures var r := DiffOf(es, animes, list);
      var first := es[FirstPos(es, id)];
      && (exists i :: 0 <= i < |r| && r[i].id == id)
      && forall i :: 0 <= i < |r| && r[i].id == id ==>
           r[i] == DiffItem(id, New, first.record.name, ["New Entry"], IdOnly(id), Some(MapStatus(first.key)))
  {
    DiffItemsClassified(es, animes, list);
    DiffCoversFirstRecords(es, animes, list);
    DiffItemsOrdered(es, animes, list);
  }

  /**
   * An id in the anime snapshot whose listed status is present and differs from the first
   * category's status yields exactly one STATUS_CHANGE record, titled english-or-romaji,
   * with the single description "Status: OLD -> NEW", whose two names differ.
   */
  lemma DiffStatusChange(es: seq<Entry>, animes: map<int, AnimeRow>, list: map<int, Option<Status>>, id: nat, previous: Status)
    requires id in IdsOf(es) && id in animes && id in list && list[id] == Some(previous)
    requires previous != MapStatus(es[FirstPos(es, id)].key)
    ensures var r := DiffOf(es, animes, list);
      var status := MapStatus(es[FirstPos(es, id)].key);
      && (exists i :: 0 <= i < |r| && r[i].id == id)
      && forall i :: 0 <= i < |r| && r[i].id == id ==>
           r[i] == DiffItem(id, StatusChange, DisplayTitle(animes[id]),
                            ["Status: " + StatusName(previous) + " -> " + StatusName(status)],
                            FullRow(animes[id]), Some(status))
    ensures StatusName(previous) != StatusName(MapStatus(es[FirstPos(es, id)].key))
  {
    StatusNameInjective(previous, MapStatus(es[FirstPos(es, id)].key));
    DiffItemsClassified(es, animes, list);
    DiffCoversFirstRecords(es, animes, list);
    DiffItemsOrdered(es, animes, list);
  }

  /**
   * Nothing is emitted for an id the store already has when the list has no status for it
   * (no row, or a null status) or has the same status, nor for an id no record resolves to.
   */
  lemma DiffNoRecord(es: seq<Entry>, animes: map<int, AnimeRow>, list: map<int, Option<Status>>, id: nat)
    requires id !in IdsOf(es) || (id in animes && (id !in list || list[id].None? || list[id] == Some(MapStatus(es[FirstPos(es, id)].key))))
    ensures var r := DiffOf(es, animes, list);
      forall i :: 0 <= i < |r| ==> r[i].id != id
  {
    DiffItemsClassified(es, animes, list);
    DiffCoversFirstRecords(es, animes, list);
    DiffItemsOrdered(es, animes, list);
  }

  // ----- The engine as written: one pass with a running "seen" set -----

  /**
   * `calculateDiff(importData, currentDbAnimes, currentDbList)`: index both snapshots, then walk
   * the records in order, skipping unresolved ids and ids already processed.
   */
  method CalculateDiff(doc: ImportDocument, dbAnimes: seq<AnimeRow>, dbList: seq<ListRow>) returns (diffs: seq<DiffItem>)
    ensures diffs == DiffOf(Entries(doc), AnimeIndex(dbAnimes), StatusIndex(dbList))
    ensures |doc| == 0 ==> diffs == []
  {
    var animeMap := BuildAnimeMap(dbAnimes);
    var listMap := BuildListMap(dbList);
    diffs := [];
    var processed: set<nat> := {};
    ghost var visited: seq<Entry> := [];
    var c := 0;
    while c < |doc|
      invariant 0 <= c <= |doc|
      invariant visited == Entries(doc[..c])
      invariant processed == IdsOf(visited)
      invariant diffs == DiffOf(visited, animeMap, listMap)
    {
      EntriesStep(doc, c);
      processed, diffs := VisitCategory(doc[c], visited, processed, diffs, animeMap, listMap);
      visited := visited + CategoryEntries(doc[c]);
      c := c + 1;
    }
    assert doc[..c] == doc;
  }

  /** The outer loop's body: the records of one category, in order. */
  method VisitCategory(category: Category, ghost visited: seq<Entry>, processed: set<nat>, diffs: seq<DiffItem>,
                       animeMap: map<int, AnimeRow>, listMap: map<int, Option<Status>>)
    returns (processed': set<nat>, diffs': seq<DiffItem>)
    requires processed == IdsOf(visited) && diffs == DiffOf(visited, animeMap, listMap)
    ensures processed' == IdsOf(visited + CategoryEntries(category))
    ensures diffs' == DiffOf(visited + CategoryEntries(category), animeMap, listMap)
  {
    var status := MapStatus(category.key);
    ghost var es := CategoryEntries(category);
    ghost var seen := visited;
    assert visited + es[..0] == seen;
    processed', diffs' := processed, diffs;
    var j := 0;
    while j < |category.items|
      invariant 0 <= j <= |category.items|
      invariant seen == visited + es[..j]
      invariant processed' == IdsOf(seen) && diffs' == DiffOf(seen, animeMap, listMap)
    {
      var e := Entry(category.key, category.items[j]);
      AppendOne(visited, es, j);
      processed', diffs' := VisitRecord(e, status, seen, processed', diffs', animeMap, listMap);
      seen := seen + [e];
      j := j + 1;
    }
    assert es[..|category.items|] == es;
  }

  lemma AppendOne<T>(a: seq<T>, b: seq<T>, j: nat)
    requires j < |b|
    ensures a + b[..j + 1] == (a + b[..j]) + [b[j]]
  {
    assert b[..j + 1] == b[..j] + [b[j]];
  }

  /** The body of the inner loop: one record, against the running "seen" set. */
  method VisitRecord(e: Entry, status: Status, ghost visited: seq<Entry>, processed: set<nat>, diffs: seq<DiffItem>,
                     animeMap: map<int, AnimeRow>, listMap: map<int, Option<Status>>)
    returns (processed': set<nat>, diffs': seq<DiffItem>)
    requires status == MapStatus(e.key)
    requires processed == IdsOf(visited) && diffs == DiffOf(visited, animeMap, listMap)
    ensures processed' == IdsOf(visited + [e]) && diffs' == DiffOf(visited + [e], animeMap, listMap)
  {
    DiffOfStep(visited + [e], animeMap, listMap);
    assert (visited + [e])[..|visited|] == visited;
    processed', diffs' := processed, diffs;
    var alId := ResolvedId(e.record.al);
    if alId.Some? && alId.value !in processed {
      var id := alId.value;
      processed' := processed + {id};
      if id !in animeMap {
        diffs' := diffs + [DiffItem(id, New, e.record.name, ["New Entry"], IdOnly(id), Some(status))];
      } else if id in listMap && listMap[id].Some? && listMap[id].value != status {
        var dbAnime := animeMap[id];
        diffs' := diffs + [DiffItem(id, StatusChange, OrTitle(dbAnime.titleEnglish, dbAnime.titleRomaji),
                                    ["Status: " + StatusName(listMap[id].value) + " -> " + StatusName(status)],
                                    FullRow(dbAnime), Some(status))];
      }
    }
  }

  /** `currentDbAnimes.forEach(a => dbAnimeMap.set(a.id, a))`. */
  method BuildAnimeMap(rows: seq<AnimeRow>) returns (m: map<int, AnimeRow>)
    ensures m == AnimeIndex(rows)
  {
    m := map[];
    var i := 0;
    while i < |rows|
      invariant 0 <= i <= |rows|
      invariant m == AnimeIndex(rows[..i])
    {
      AnimeIndexStep(rows, i);
      m := m[rows[i].id := rows[i]];
      i := i + 1;
    }
    assert rows[..i] == rows;
  }

  /** `currentDbList.forEach(l => dbListMap.set(l.anime_id, l.status))`. */
  method BuildListMap(rows: seq<ListRow>) returns (m: map<int, Option<Status>>)
    ensures m == StatusIndex(rows)
  {
    m := map[];
    var i := 0;
    while i < |rows|
      invariant 0 <= i <= |rows|
      invariant m == StatusIndex(rows[..i])
    {
      StatusIndexStep(rows, i);
      m := m[rows[i].animeId := rows[i].status];
      i := i + 1;
    }
    assert rows[..i] == rows;
  }
}
