/**
 * Catalog records: the `Media` object the AniList API returns and the `animes` row the
 * program stores, with the `a || b` fallbacks the row mappers use.
 */
module Catalog {
  import opened Base
  import opened Dates
  import opened WatchStatus

  datatype MediaTitle = MediaTitle(romaji: string, english: Option<string>, native: Option<string>)

  datatype CoverImage = CoverImage(extraLarge: Option<string>, large: Option<string>, medium: Option<string>)

  /** Fields every mapper copies unchanged from the catalog into the row. */
  datatype Details = Details(
    description: Option<string>,
    bannerImage: Option<string>,
    status: Option<string>,
    episodes: Option<int>,
    duration: Option<int>,
    genres: Option<seq<string>>,
    averageScore: Option<int>,
    source: Option<string>,
    idMal: Option<int>,
    siteUrl: Option<string>)

  /** Release fields copied unchanged by the import action and the scraper (not by the ingestion script). */
  datatype Release = Release(
    format: Option<string>,
    season: Option<string>,
    seasonYear: Option<int>,
    popularity: Option<int>,
    favourites: Option<int>)

  datatype RelatedNode = RelatedNode(
    id: int,
    romaji: Option<string>,
    english: Option<string>,
    coverMedium: Option<string>,
    status: Option<string>,
    format: Option<string>,
    season: Option<string>,
    seasonYear: Option<int>)

  datatype RelationEdge = RelationEdge(relationType: string, node: RelatedNode)

  /**
   * A catalog entry as the API returns it. `studios` is the list of studio node names, absent
   * when the API sends no `studios.nodes`; `relations` is absent when it sends no edges.
   */
  datatype Media = Media(
    id: int,
    title: MediaTitle,
    coverImage: CoverImage,
    startDate: Option<FuzzyDate>,
    endDate: Option<FuzzyDate>,
    studios: Option<seq<string>>,
    details: Details,
    release: Release,
    isAdult: Option<bool>,
    relations: Option<seq<RelationEdge>>)

  /** A related title as the scraper stores it inside a row. */
  datatype Relation = Relation(
    id: int,
    relationType: string,
    title: Option<string>,
    image: Option<string>,
    status: Option<string>,
    format: Option<string>,
    season: Option<string>,
    seasonYear: Option<int>)

  /** A row of the `animes` table. Columns a writer does not send are None / empty here. */
  datatype AnimeRow = AnimeRow(
    id: int,
    titleRomaji: string,
    titleEnglish: Option<string>,
    titleNative: Option<string>,
    coverImage: Option<string>,
    startDate: Option<string>,
    endDate: Option<string>,
    studios: seq<string>,
    details: Details,
    release: Option<Release>,
    isAdult: Option<bool>,
    ustatus: Option<Status>,
    relations: seq<Relation>)

  /** A string value that JavaScript treats as true: present and non-empty. */
  predicate Filled(s: Option<string>) {
    s.Some? && s.value != ""
  }

  /** `a || b` on two nullable strings. */
  function OrText(a: Option<string>, b: Option<string>): (r: Option<string>)
    ensures Filled(a) ==> r == a
    ensures !Filled(a) ==> r == b
  {
    if Filled(a) then a else b
  }

  /** `a || b` where the fallback is always a string. */
  function OrTitle(a: Option<string>, b: string): (r: string)
    ensures Filled(a) ==> r == a.value
    ensures !Filled(a) ==> r == b
  {
    if Filled(a) then a.value else b
  }

  /** `title_english || title_romaji`: the name a stored row is shown under. */
  function DisplayTitle(row: AnimeRow): string {
    OrTitle(row.titleEnglish, row.titleRomaji)
  }
}
