/**
 * `smartSyncAction`: write the imported statuses straight into the `ustatus` column of the
 * stored titles. A record with a usable `al` link updates that id; any other record is
 * looked up by its cleaned name; the updates are written in batches of 50.
 */
module SmartSync {
  import opened Base
  import opened Decimal
  import opened WatchStatus
  import opened AniListId
  import opened ImportData
  import opened Chunking
  import opened DiffEngine
  import opened SystemLog

  /** One `{ id, ustatus }` element of the update list. */
  datatype StatusUpdate = StatusUpdate(id: int, ustatus: Status)

  /** What the planning loop collects: the updates, the human-readable notes, and the names it looked up. */
  datatype SyncPlan = SyncPlan(updates: seq<StatusUpdate>, notes: seq<string>, lookups: seq<string>)

  /** The batch size of the update loop. */
  const SyncBatchSize: nat := 50

  /** At most this many notes are kept in the log row. */
  const MaxLoggedNotes: nat := 50

  predicate IsQuote(c: char) {
    c == '\'' || c == '"'
  }

  /**
   * `name.replace(/['"]/g, '')`: the name with every single and double quote removed. With
   * `CleanNameAppend`, the one-character cases fix the result for every name.
   */
  function CleanName(name: string): (r: string)
    ensures |r| <= |name|
    ensures forall i :: 0 <= i < |r| ==> !IsQuote(r[i])
    ensures |name| == 1 && IsQuote(name[0]) ==> r == []
    ensures |name| == 1 && !IsQuote(name[0]) ==> r == name
  {
    if |name| == 0 then []
    else if IsQuote(name[0]) then CleanName(name[1..])
    else [name[0]] + CleanName(name[1..])
  }

  /** A name without quotes is searched for as it is. */
  lemma {:induction false} CleanNameKeepsQuoteFree(name: string)
    requires forall i :: 0 <= i < |name| ==> !IsQuote(name[i])
    ensures CleanName(name) == name
  {
    if |name| > 0 {
      CleanNameKeepsQuoteFree(name[1..]);
    }
  }

  /** Cleaning works character by character: the kept characters stay in their order. */
  lemma {:induction false} CleanNameAppend(a: string, b: string)
    ensures CleanName(a + b) == CleanName(a) + CleanName(b)
  {
    if |a| > 0 {
      assert (a + b)[0] == a[0] && (a + b)[1..] == a[1..] + b;
      CleanNameAppend(a[1..], b);
    } else {
      assert a + b == b;
    }
  }

  /** Cleaning twice is cleaning once. */
  lemma CleanNameIdempotent(name: string)
    ensures CleanName(CleanName(name)) == CleanName(name)
  {
    CleanNameKeepsQuoteFree(CleanName(name));
  }

  /** Cleaning only removes quotes: every other character occurs as often as before. */
  lemma {:induction false} CleanNameDropsOnlyQuotes(name: string, c: char)
    requires !IsQuote(c)
    ensures multiset(CleanName(name))[c] == multiset(name)[c]
  {
    if |name| > 0 {
      CleanNameDropsOnlyQuotes(name[1..], c);
      assert name == [name[0]] + name[1..];
    }
  }

  // ----- Planning -----

  /** What one record contributes, given the title search `lookup` (cleaned name to id). */
  function PlanEntry(e: Entry, lookup: string -> Option<int>): SyncPlan {
    match StatusLookup(e.key)
    case None => SyncPlan([], [], [])
    case Some(status) =>
      match ResolvedId(e.record.al)
      case Some(id) => SyncPlan([StatusUpdate(id, status)], [], [])
      case None =>
        var query := CleanName(e.record.name);
        match lookup(query)
        case Some(found) => SyncPlan([StatusUpdate(found, status)], ["Matched \"" + e.record.name + "\" by title"], [query])
        case None => SyncPlan([], ["Could not find \"" + e.record.name + "\" in database"], [query])
  }

  function Join(a: SyncPlan, b: SyncPlan): SyncPlan {
    SyncPlan(a.updates + b.updates, a.notes + b.notes, a.lookups + b.lookups)
  }

  /** The planning loop over every record of every category, in visiting order. */
  function Plan(es: seq<Entry>, lookup: string -> Option<int>): SyncPlan {
    if |es| == 0 then SyncPlan([], [], [])
    else Join(Plan(es[..|es| - 1], lookup), PlanEntry(es[|es| - 1], lookup))
  }

  /** The records listed under one of the five known categories. */
  function KnownCount(es: seq<Entry>): nat {
    if |es| == 0 then 0
    else KnownCount(es[..|es| - 1]) + (if StatusLookup(es[|es| - 1].key).Some? then 1 else 0)
  }

  /**
   * Bookkeeping of the plan: every name looked up leaves exactly one note; every known record
   * yields at most one update; a record is lost only when its title search finds nothing;
   * no query contains a quote; and no update carries UNKNOWN.
   */
  lemma {:induction false} PlanCounts(es: seq<Entry>, lookup: string -> Option<int>)
    ensures var p := Plan(es, lookup);
      && |p.notes| == |p.lookups|
      && |p.updates| <= KnownCount(es) <= |p.updates| + |p.lookups|
      && (|p.updates| == KnownCount(es) <==> forall i :: 0 <= i < |p.lookups| ==> lookup(p.lookups[i]).Some?)
      && (forall i :: 0 <= i < |p.updates| ==> p.updates[i].ustatus != Unknown)
      && (forall i, j :: 0 <= i < |p.lookups| && 0 <= j < |p.lookups[i]| ==> !IsQuote(p.lookups[i][j]))
  {
    if |es| > 0 {
      var front := es[..|es| - 1];
      var e := es[|es| - 1];
      PlanCounts(front, lookup);
      var p0 := Plan(front, lookup);
      var p := Plan(es, lookup);
      var q := PlanEntry(e, lookup);
      assert p == Join(p0, q);
      forall i, j | 0 <= i < |p.lookups| && 0 <= j < |p.lookups[i]|
        ensures !IsQuote(p.lookups[i][j])
      {
        if i < |p0.lookups| {
          assert p.lookups[i] == p0.lookups[i];
        } else {
          assert p.lookups[i] == CleanName(e.record.name);
        }
      }
      forall i | 0 <= i < |p.updates|
        ensures p.updates[i].ustatus != Unknown
      {
        if i < |p0.updates| {
          assert p.updates[i] == p0.updates[i];
        }
      }
      var known := if StatusLookup(e.key).Some? then 1 else 0;
      assert KnownCount(es) == KnownCount(front) + known;
      PlanEntryCounts(e, lookup);
      assert (forall i :: 0 <= i < |p.lookups| ==> lookup(p.lookups[i]).Some?) <==>
             (forall i :: 0 <= i < |p0.lookups| ==> lookup(p0.lookups[i]).Some?)
             && (forall i :: 0 <= i < |q.lookups| ==> lookup(q.lookups[i]).Some?) by {
        assert forall i :: 0 <= i < |p0.lookups| ==> p.lookups[i] == p0.lookups[i];
        assert forall i :: 0 <= i < |q.lookups| ==> p.lookups[|p0.lookups| + i] == q.lookups[i];
      }
    }
  }

  lemma PlanEntryCounts(e: Entry, lookup: string -> Option<int>)
    ensures var q := PlanEntry(e, lookup);
      var known := if StatusLookup(e.key).Some? then 1 else 0;
      && |q.notes| == |q.lookups| && |q.updates| <= known <= |q.updates| + |q.lookups|
      && (|q.updates| == known <==> forall i :: 0 <= i < |q.lookups| ==> lookup(q.lookups[i]).Some?)
  {
    var q := PlanEntry(e, lookup);
    if StatusLookup(e.key).Some? && ResolvedId(e.record.al).None? {
      var query := CleanName(e.record.name);
      assert q.lookups == [query];
      if lookup(query).Some? {
        assert |q.updates| == 1;
      } else {
        assert |q.updates| == 0;
        assert !lookup(q.lookups[0]).Some?;
      }
    }
  }

  /**
   * Every record under a known category with a usable link yields an update of exactly that id
   * with that category's status, and no title search and no note.
   */
  lemma {:induction false} PlanUsesLinkedIds(es: seq<Entry>, lookup: string -> Option<int>, k: nat)
    requires k < |es| && StatusLookup(es[k].key).Some? && ResolvedId(es[k].record.al).Some?
    ensures StatusUpdate(ResolvedId(es[k].record.al).value, MapStatus(es[k].key)) in Plan(es, lookup).updates
    ensures PlanEntry(es[k], lookup).lookups == [] && PlanEntry(es[k], lookup).notes == []
  {
    StatusLookupAgreesWithMapStatus(es[k].key);
    if k < |es| - 1 {
      assert es[..|es| - 1][k] == es[k];
      PlanUsesLinkedIds(es[..|es| - 1], lookup, k);
    }
  }

  /** Every update comes from some record under a known category: by its link, or else by its name. */
  lemma {:induction false} PlanUpdatesSourced(es: seq<Entry>, lookup: string -> Option<int>)
    ensures forall i :: 0 <= i < |Plan(es, lookup).updates| ==> SourcedIn(es, Plan(es, lookup).updates[i], lookup)
  {
    if |es| > 0 {
      var n := |es| - 1;
      var front := es[..n];
      PlanUpdatesSourced(front, lookup);
      forall i | 0 <= i < |Plan(es, lookup).updates|
        ensures SourcedIn(es, Plan(es, lookup).updates[i], lookup)
      {
        if i < |Plan(front, lookup).updates| {
          assert Plan(es, lookup).updates[i] == Plan(front, lookup).updates[i];
          var k :| 0 <= k < |front| && Sources(front[k], Plan(front, lookup).updates[i], lookup);
          assert es[k] == front[k];
        } else {
          StatusLookupAgreesWithMapStatus(es[n].key);
          assert Sources(es[n], Plan(es, lookup).updates[i], lookup);
        }
      }
    }
  }

  /** Some record of `es` accounts for update `u`. */
  predicate SourcedIn(es: seq<Entry>, u: StatusUpdate, lookup: string -> Option<int>) {
    exists k :: 0 <= k < |es| && Sources(es[k], u, lookup)
  }

  /** Record `e` accounts for update `u`. */
  predicate Sources(e: Entry, u: StatusUpdate, lookup: string -> Option<int>) {
    && StatusLookup(e.key).Some? && u.ustatus == MapStatus(e.key)
    && ((u.id >= 0 && ResolvedId(e.record.al) == Some(u.id as nat))
        || (ResolvedId(e.record.al).None? && lookup(CleanName(e.record.name)) == Some(u.id)))
  }

  /** The update list is not de-duplicated: the same link listed twice is written twice. */
  lemma RepeatedLinkIsNotMerged(lookup: string -> Option<int>)
    ensures var e := Entry("Completed", ImportRecord("One Piece", None, Some("https://anilist.co/anime/21/one-piece")));
      Plan([e, e], lookup).updates == [StatusUpdate(21, Completed), StatusUpdate(21, Completed)]
  {
    var e := Entry("Completed", ImportRecord("One Piece", None, Some("https://anilist.co/anime/21/one-piece")));
    OnePieceExample();
    assert StatusLookup("Completed") == Some(Completed);
    assert PlanEntry(e, lookup) == SyncPlan([StatusUpdate(21, Completed)], [], []);
    assert [e, e][..1] == [e];
    assert [e][..0] == [];
    assert Plan([e], lookup) == Join(Plan([], lookup), PlanEntry(e, lookup));
  }

  // ----- Writing -----

  /** The `ustatus` column after upserting `us` in order: each update overwrites its id. */
  function ApplyUpdates(store: map<int, Status>, us: seq<StatusUpdate>): map<int, Status> {
    if |us| == 0 then store
    else ApplyUpdates(store, us[..|us| - 1])[us[|us| - 1].id := us[|us| - 1].ustatus]
  }

  lemma {:induction false} ApplyUpdatesAppend(store: map<int, Status>, a: seq<StatusUpdate>, b: seq<StatusUpdate>)
    ensures ApplyUpdates(store, a + b) == ApplyUpdates(ApplyUpdates(store, a), b)
    decreases |b|
  {
    if |b| == 0 {
      assert a + b == a;
    } else {
      assert (a + b)[..|a + b| - 1] == a + b[..|b| - 1];
      ApplyUpdatesAppend(store, a, b[..|b| - 1]);
    }
  }

  function UpdateId(u: StatusUpdate): int {
    u.id
  }

  /** The column overlaid with the last update per id. */
  function Overlay(store: map<int, Status>, last: map<int, StatusUpdate>): map<int, Status> {
    map id | id in store.Keys + last.Keys :: if id in last then last[id].ustatus else store[id]
  }

  /**
   * Upserting the updates one after another is the same as overlaying, for each id, the LAST
   * update that names it; ids no update names keep their value.
   */
  lemma {:induction false} ApplyUpdatesLastWins(store: map<int, Status>, us: seq<StatusUpdate>)
    ensures ApplyUpdates(store, us) == Overlay(store, IndexLastWins(us, UpdateId))
  {
    if |us| > 0 {
      var n := |us| - 1;
      ApplyUpdatesLastWins(store, us[..n]);
      var last := IndexLastWins(us[..n], UpdateId);
      assert IndexLastWins(us, UpdateId) == last[UpdateId(us[n]) := us[n]];
      OverlayStep(store, last, us[n]);
    }
  }

  lemma OverlayStep(store: map<int, Status>, last: map<int, StatusUpdate>, u: StatusUpdate)
    ensures Overlay(store, last[UpdateId(u) := u]) == Overlay(store, last)[u.id := u.ustatus]
  {
    var a := Overlay(store, last[UpdateId(u) := u]);
    var b := Overlay(store, last)[u.id := u.ustatus];
    assert a.Keys == b.Keys;
    forall id | id in a.Keys
      ensures a[id] == b[id]
    {
    }
  }

  /**
   * The SMART_SYNC row: it reports the number of updates, and keeps exactly the first 50
   * notes, all of them when there are no more.
   */
  function SyncEntry(p: SyncPlan): (e: LogEntry)
    ensures e.event == SmartSync && e.meta.SyncSummary? && e.meta.matched == |p.updates|
    ensures e.meta.lines <= p.notes && |e.meta.lines| <= MaxLoggedNotes
    ensures |p.notes| > MaxLoggedNotes ==> |e.meta.lines| == MaxLoggedNotes
    ensures |p.notes| <= MaxLoggedNotes ==> e.meta.lines == p.notes
  {
    LogEntry(SmartSync, "Global sync completed: " + Show(|p.updates|) + " items updated.",
             SyncSummary(|p.updates|, p.notes[..Min(MaxLoggedNotes, |p.notes|)]))
  }

  /**
   * The value `smartSyncAction` is handed, as far as its loop cares: an export it can walk, or
   * one it throws on before any write, with the thrown message. The loop throws on a known
   * label holding something it cannot iterate, on a null record, and on a record with no
   * usable link and no name.
   */
  datatype SyncInput = Walkable(doc: ImportDocument) | Unwalkable(error: string)

  /**
   * `smartSyncAction`. An export the loop cannot walk answers with the thrown message and
   * writes nothing. Otherwise the batches go out in order and the first failing batch aborts
   * the action: the batches before it stay written, nothing is logged and its error is
   * returned. Otherwise the column holds every update, one SMART_SYNC row is inserted (a
   * refused insert goes unnoticed), and the count is the number of updates (repeats included).
   */
  method SmartSyncAction(input: SyncInput, lookup: string -> Option<int>, upsert: seq<StatusUpdate> -> Option<string>,
                         insertLog: LogEntry -> bool, store: map<int, Status>, log: seq<LogEntry>)
    returns (r: Outcome<nat>, store': map<int, Status>, log': seq<LogEntry>)
    ensures input.Unwalkable? ==> r == Err(input.error) && store' == store && log' == log
    ensures input.Walkable? ==> var p := Plan(Entries(input.doc), lookup);
      r.Ok? <==> AllWritten(Chunks(p.updates, SyncBatchSize), upsert)
    ensures input.Walkable? ==> var p := Plan(Entries(input.doc), lookup);
      r.Ok? ==> r.value == |p.updates| && store' == ApplyUpdates(store, p.updates)
                && (insertLog(SyncEntry(p)) ==> log' == log + [SyncEntry(p)])
                && (!insertLog(SyncEntry(p)) ==> log' == log)
    ensures input.Walkable? ==> var p := Plan(Entries(input.doc), lookup);
      r.Err? ==> log' == log && FailedAt(Chunks(p.updates, SyncBatchSize), upsert, r.message, store, store')
  {
    if input.Unwalkable? {
      return Err(input.error), store, log;
    }
    var p := PlanLoop(Entries(input.doc), lookup);
    var failure;
    failure, store' := WriteBatches(Chunks(p.updates, SyncBatchSize), upsert, store);
    if failure.Some? {
      return Err(failure.value), store', log;
    }
    r := Ok(|p.updates|);
    log' := Insert(log, SyncEntry(p), insertLog);
  }

  /** The batch loop: upsert each batch in turn and stop at the first error. */
  method WriteBatches(batches: seq<seq<StatusUpdate>>, upsert: seq<StatusUpdate> -> Option<string>, store: map<int, Status>)
    returns (failure: Option<string>, store': map<int, Status>)
    ensures failure.None? <==> AllWritten(batches, upsert)
    ensures failure.None? ==> store' == ApplyUpdates(store, Concat(batches))
    ensures failure.Some? ==> FailedAt(batches, upsert, failure.value, store, store')
  {
    store' := store;
    var k := 0;
    while k < |batches|
      invariant 0 <= k <= |batches|
      invariant forall j :: 0 <= j < k ==> upsert(batches[j]).None?
      invariant store' == ApplyUpdates(store, Concat(batches[..k]))
    {
      var outcome := upsert(batches[k]);
      if outcome.Some? {
        assert FailedAt(batches, upsert, outcome.value, store, store');
        return outcome, store';
      }
      ConcatPrefixStep(batches, k);
      ApplyUpdatesAppend(store, Concat(batches[..k]), batches[k]);
      store' := ApplyUpdates(store', batches[k]);
      k := k + 1;
    }
    assert batches[..k] == batches;
    failure := None;
  }

  /** Every batch's upsert succeeds. */
  predicate AllWritten(batches: seq<seq<StatusUpdate>>, upsert: seq<StatusUpdate> -> Option<string>) {
    forall k :: 0 <= k < |batches| ==> upsert(batches[k]).None?
  }

  /**
   * Batch `k` is the first whose upsert failed, with `message`, and the column holds exactly
   * the batches before it.
   */
  predicate FailedAt(batches: seq<seq<StatusUpdate>>, upsert: seq<StatusUpdate> -> Option<string>, message: string,
                     store: map<int, Status>, store': map<int, Status>) {
    exists k ::
      && 0 <= k < |batches|
      && upsert(batches[k]) == Some(message)
      && (forall j :: 0 <= j < k ==> upsert(batches[j]).None?)
      && store' == ApplyUpdates(store, Concat(batches[..k]))
  }

  /** The planning loop as the source runs it: categories in turn, records in order. */
  method PlanLoop(es: seq<Entry>, lookup: string -> Option<int>) returns (p: SyncPlan)
    ensures p == Plan(es, lookup)
  {
    p := SyncPlan([], [], []);
    var i := 0;
    while i < |es|
      invariant 0 <= i <= |es|
      invariant p == Plan(es[..i], lookup)
    {
      assert es[..i + 1][..i] == es[..i];
      p := Join(p, PlanEntry(es[i], lookup));
      i := i + 1;
    }
    assert es[..i] == es;
  }
}
