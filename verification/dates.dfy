/**
 * The two `formatDate` policies applied to AniList fuzzy dates: a strict one that needs all
 * three parts, and a defaulting one that needs only the year.
 */
module Dates {
  import opened Base
  import opened Decimal

  /** `{ year, month, day }` as the catalog reports it; any part may be missing. */
  datatype FuzzyDate = FuzzyDate(year: Option<nat>, month: Option<nat>, day: Option<nat>)

  /** JavaScript truthiness of a numeric part: present and not 0. */
  predicate Given(part: Option<nat>) {
    part.Some? && part.value != 0
  }

  /** `part || 1`. */
  function OrOne(part: Option<nat>): (n: nat)
    ensures Given(part) ==> n == part.value
    ensures !Given(part) ==> n == 1
  {
    if Given(part) then part.value else 1
  }

  /** The text both policies produce: the year unpadded, month and day padded to two digits. */
  function DateText(year: nat, month: nat, day: nat): string {
    Show(year) + "-" + Pad2(Show(month)) + "-" + Pad2(Show(day))
  }

  /** Reads a `Y-MM-DD` text back into its three numbers; the independent check on `DateText`. */
  function ParseDate(s: string): Option<(nat, nat, nat)> {
    if |s| >= 7 && s[|s| - 6] == '-' && s[|s| - 3] == '-'
       && AllDigits(s[..|s| - 6]) && AllDigits(s[|s| - 5..|s| - 3]) && AllDigits(s[|s| - 2..])
    then Some((Value(s[..|s| - 6]), Value(s[|s| - 5..|s| - 3]), Value(s[|s| - 2..])))
    else None
  }

  /** A date whose month and day fit in two digits reads back as the numbers it was built from. */
  lemma DateTextRoundTrip(year: nat, month: nat, day: nat)
    ensures month < 100 && day < 100 ==> ParseDate(DateText(year, month, day)) == Some((year, month, day))
  {
    if month >= 100 || day >= 100 {
      return;
    }
    var y, m, d := Show(year), Pad2(Show(month)), Pad2(Show(day));
    ShowSmall(month);
    ShowSmall(day);
    Pad2Value(month);
    Pad2Value(day);
    var s := DateText(year, month, day);
    assert s == y + "-" + m + "-" + d;
    assert s[..|s| - 6] == y;
    assert s[|s| - 5..|s| - 3] == m;
    assert s[|s| - 2..] == d;
  }

  /**
   * `formatDate` of the ingestion script: null unless year, month and day are all given;
   * otherwise the three numbers, padded, with no defaulting.
   */
  function FormatDateStrict(date: Option<FuzzyDate>): (r: Option<string>)
    ensures r.Some? <==> date.Some? && Given(date.value.year) && Given(date.value.month) && Given(date.value.day)
    ensures r.Some? && date.value.month.value < 100 && date.value.day.value < 100 ==>
              ParseDate(r.value) == Some((date.value.year.value, date.value.month.value, date.value.day.value))
  {
    match date
    case None => None
    case Some(d) =>
      if Given(d.year) && Given(d.month) && Given(d.day) then
        DateTextRoundTrip(d.year.value, d.month.value, d.day.value);
        Some(DateText(d.year.value, d.month.value, d.day.value))
      else None
  }

  /**
   * `formatDate` of the import action and of the scraper: null when the year is not given;
   * otherwise a missing or zero month or day becomes 1.
   */
  function FormatDateDefaulting(date: Option<FuzzyDate>): (r: Option<string>)
    ensures r.Some? <==> date.Some? && Given(date.value.year)
    ensures r.Some? && OrOne(date.value.month) < 100 && OrOne(date.value.day) < 100 ==>
              ParseDate(r.value) == Some((date.value.year.value, OrOne(date.value.month), OrOne(date.value.day)))
  {
    match date
    case None => None
    case Some(d) =>
      if Given(d.year) then
        DateTextRoundTrip(d.year.value, OrOne(d.month), OrOne(d.day));
        Some(DateText(d.year.value, OrOne(d.month), OrOne(d.day)))
      else None
  }

  /**
   * How the two policies differ: wherever the strict one gives a date the defaulting one gives
   * the same text; they part only when the year is given but the month or day is not, where the
   * strict one gives null and the defaulting one fills in 01.
   */
  lemma StrictAndDefaultingDates(date: Option<FuzzyDate>)
    ensures FormatDateStrict(date).Some? ==> FormatDateDefaulting(date) == FormatDateStrict(date)
    ensures FormatDateDefaulting(date).None? ==> FormatDateStrict(date).None?
    ensures FormatDateStrict(date) != FormatDateDefaulting(date) <==>
              date.Some? && Given(date.value.year) && !(Given(date.value.month) && Given(date.value.day))
  {
  }

  /** The worked example: a year with no month or day formats as 1 January under the defaulting policy only. */
  lemma YearOnlyExample()
    ensures FormatDateDefaulting(Some(FuzzyDate(Some(2004), None, None))) == Some("2004-01-01")
    ensures FormatDateStrict(Some(FuzzyDate(Some(2004), None, None))) == None
  {
    assert Show(20) == "20";
    assert Show(200) == "200";
    assert Show(2004) == "2004";
    assert Pad2(Show(1)) == "01";
    assert DateText(2004, 1, 1) == "2004" + "-" + "01" + "-" + "01" == "2004-01-01";
  }
}
