/**
 * The exported watch-list: category labels, each with an ordered list of records. The
 * document is given as the sequence of categories in the order the loops visit its keys.
 */
module ImportData {
  import opened Base
  import opened AniListId

  /** `{ name, mal, al }`: a display name and two optional catalog links. */
  datatype ImportRecord = ImportRecord(name: string, mal: Option<string>, al: Option<string>)

  /** One key of the document with its list of records. */
  datatype Category = Category(key: string, items: seq<ImportRecord>)

  type ImportDocument = seq<Category>

  /**
   * What `JSON.parse` makes of an uploaded text, as far as the import cares: no JSON at all;
   * JSON that the diff loop cannot walk (`null`, a category that is not a list, a record that
   * is not an object), which throws only once the loop reaches it; or an export document.
   */
  datatype ParsedText = NotJson | NotAnExport | Export(doc: ImportDocument)

  /** A record together with the category it was listed under. */
  datatype Entry = Entry(key: string, record: ImportRecord)

  function CategoryEntries(c: Category): (es: seq<Entry>)
    ensures |es| == |c.items|
    ensures forall i :: 0 <= i < |es| ==> es[i] == Entry(c.key, c.items[i])
  {
    seq(|c.items|, i requires 0 <= i < |c.items| => Entry(c.key, c.items[i]))
  }

  /** The records in visiting order: categories in turn, each list front to back. */
  function Entries(doc: ImportDocument): seq<Entry> {
    if |doc| == 0 then [] else Entries(doc[..|doc| - 1]) + CategoryEntries(doc[|doc| - 1])
  }

  lemma EntriesStep(doc: ImportDocument, i: nat)
    requires i < |doc|
    ensures Entries(doc[..i + 1]) == Entries(doc[..i]) + CategoryEntries(doc[i])
  {
    assert doc[..i + 1][..i] == doc[..i];
  }

  /** The id a record resolves to through its `al` link, with 0 and failures discarded. */
  function IdOf(e: Entry): Option<nat> {
    ResolvedId(e.record.al)
  }

  /** All ids the entries resolve to. */
  function IdsOf(es: seq<Entry>): set<nat> {
    if |es| == 0 then {}
    else
      match IdOf(es[|es| - 1])
      case Some(id) => IdsOf(es[..|es| - 1]) + {id}
      case None => IdsOf(es[..|es| - 1])
  }

  /** An id is among `IdsOf(es)` exactly when some entry resolves to it. */
  lemma {:induction false} IdsOfMembers(es: seq<Entry>)
    ensures forall id :: id in IdsOf(es) <==> exists i :: 0 <= i < |es| && IdOf(es[i]) == Some(id)
  {
    if |es| > 0 {
      var front := es[..|es| - 1];
      IdsOfMembers(front);
      assert forall i :: 0 <= i < |front| ==> front[i] == es[i];
    }
  }

  /** The id of every entry is among `IdsOf`. */
  lemma {:induction false} IdsOfHas(es: seq<Entry>, i: nat)
    requires i < |es| && IdOf(es[i]).Some?
    ensures IdOf(es[i]).value in IdsOf(es)
  {
    if i < |es| - 1 {
      assert es[..|es| - 1][i] == es[i];
      IdsOfHas(es[..|es| - 1], i);
    }
  }

  /** Entry `k` resolves to an id that no earlier entry resolves to. */
  predicate FirstOccurrence(es: seq<Entry>, k: int) {
    0 <= k < |es| && IdOf(es[k]).Some? && IdOf(es[k]).value !in IdsOf(es[..k])
  }

  /** Entry `k` resolves to an id that no later entry resolves to. */
  predicate LastOccurrence(es: seq<Entry>, k: int) {
    0 <= k < |es| && IdOf(es[k]).Some? && forall j :: k < j < |es| ==> IdOf(es[j]) != IdOf(es[k])
  }
}
