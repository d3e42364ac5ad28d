/** The closed set of watch statuses and the category-label tables that produce them. */
module WatchStatus {
  import opened Base

  /** `UserAnimeStatus`. */
  datatype Status = ToWatch | Planning | Dropped | OnHold | Completed | Unknown

  /** The export category label that stands for a known status (the left column of the tables). */
  function CategoryLabel(s: Status): string
    requires s != Unknown
  {
    match s
    case ToWatch => "To watch"
    case Planning => "Planning"
    case Dropped => "Dropped"
    case OnHold => "On-Hold"
    case Completed => "Completed"
  }

  /** The stored spelling of a status, as it appears in the tables and in change descriptions. */
  function StatusName(s: Status): string {
    match s
    case ToWatch => "TO_WATCH"
    case Planning => "PLANNING"
    case Dropped => "DROPPED"
    case OnHold => "ON_HOLD"
    case Completed => "COMPLETED"
    case Unknown => "UNKNOWN"
  }

  /**
   * `mapStatus`: a case-sensitive exact match against the five category labels; every
   * other category, whatever its spelling, is UNKNOWN.
   */
  function MapStatus(category: string): (s: Status)
    ensures s != Unknown ==> CategoryLabel(s) == category
    ensures s == Unknown <==> forall k: Status :: k != Unknown ==> CategoryLabel(k) != category
  {
    match category
    case "To watch" => ToWatch
    case "Planning" => Planning
    case "Dropped" => Dropped
    case "On-Hold" => OnHold
    case "Completed" => Completed
    case _ => Unknown
  }

  /** Every known status is reached from its own category: the table is onto the five known values. */
  lemma MapStatusOfLabel(s: Status)
    requires s != Unknown
    ensures MapStatus(CategoryLabel(s)) == s
  {
  }

  /** Case matters: the lower-case spelling of a category is not recognised. */
  lemma MapStatusIsCaseSensitive()
    ensures MapStatus("completed") == Unknown && MapStatus("to watch") == Unknown
  {
  }

  /**
   * `STATUS_MAP[category]` in the smart-sync action: a partial table with the same five
   * entries, absent (rather than UNKNOWN) for every other category.
   */
  function StatusLookup(category: string): (r: Option<Status>)
    ensures r.Some? ==> r.value != Unknown && CategoryLabel(r.value) == category
  {
    var table := map[
      "To watch" := ToWatch,
      "Planning" := Planning,
      "Dropped" := Dropped,
      "On-Hold" := OnHold,
      "Completed" := Completed];
    if category in table then Some(table[category]) else None
  }

  /**
   * The partial table and the total switch agree: the lookup is present exactly when the
   * switch gives a known status, and then gives that status. So `STATUS_MAP[cat] || 'UNKNOWN'`
   * in the scraper is `mapStatus`.
   */
  lemma StatusLookupAgreesWithMapStatus(category: string)
    ensures StatusLookup(category).Some? <==> MapStatus(category) != Unknown
    ensures StatusLookup(category).GetOr(Unknown) == MapStatus(category)
  {
  }

  /** Distinct statuses are stored under distinct names. */
  lemma StatusNameInjective(a: Status, b: Status)
    ensures StatusName(a) == StatusName(b) <==> a == b
  {
  }
}
