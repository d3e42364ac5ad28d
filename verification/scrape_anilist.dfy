/**
 * The archive scraper: a last-wins map from id to the user's status, the resume page computed
 * from the cached `page_N.json` files, the row built from each catalog entry, and the loop
 * that requests two pages per round until a page says there is no next page.
 */
module ScrapeAnilist {
  import opened Base
  import opened Decimal
  import opened Dates
  import opened WatchStatus
  import opened AniListId
  import opened ImportData
  import opened Catalog
  import opened ImportAction
  import opened IngestData

  // ----- The user's statuses: last record wins -----

  /** `userStatusMap`: each resolved id mapped to the status of its LAST record; unknown labels give UNKNOWN. */
  function UserStatusMap(es: seq<Entry>): map<int, Status> {
    if |es| == 0 then map[]
    else
      var n := |es| - 1;
      var prev := UserStatusMap(es[..n]);
      match IdOf(es[n])
      case None => prev
      case Some(id) => prev[id := MapStatus(es[n].key)]
  }

  /** The map's keys are exactly the ids some record resolves to. */
  lemma {:induction false} UserStatusMapKeys(es: seq<Entry>)
    ensures forall id :: id in UserStatusMap(es) <==> id >= 0 && id as nat in IdsOf(es)
  {
    if |es| > 0 {
      UserStatusMapKeys(es[..|es| - 1]);
    }
  }

  /** Last wins: each id is mapped to the status of the last record that resolves to it. */
  lemma {:induction false} UserStatusMapLastWins(es: seq<Entry>)
    ensures forall k :: LastOccurrence(es, k) ==>
              IdOf(es[k]).value in UserStatusMap(es) && UserStatusMap(es)[IdOf(es[k]).value] == MapStatus(es[k].key)
  {
    if |es| > 0 {
      var n := |es| - 1;
      var front := es[..n];
      UserStatusMapLastWins(front);
      forall k | LastOccurrence(es, k)
        ensures IdOf(es[k]).value in UserStatusMap(es) && UserStatusMap(es)[IdOf(es[k]).value] == MapStatus(es[k].key)
      {
        if k < n {
          assert front[k] == es[k];
          assert forall j :: k < j < |front| ==> front[j] == es[j];
          assert LastOccurrence(front, k);
        }
      }
    }
  }

  /** A missing or unreadable export leaves the map empty. */
  function UserStatusMapOf(doc: Option<ImportDocument>): (m: map<int, Status>)
    ensures doc.None? ==> m == map[]
  {
    match doc
    case None => map[]
    case Some(d) => UserStatusMap(Entries(d))
  }

  /**
   * The two scripts resolve a repeated id differently: listed under Planning and then under
   * Completed, the ingestion queue keeps Planning and the scraper's map keeps Completed.
   */
  lemma FirstWinsAndLastWinsDiffer(link: Option<string>, id: nat)
    requires ResolvedId(link) == Some(id)
    ensures var es := [Entry("Planning", ImportRecord("", None, link)), Entry("Completed", ImportRecord("", None, link))];
      WorkQueue(es) == [WorkItem(id, Planning)] && UserStatusMap(es) == map[id := Completed]
  {
    var a := Entry("Planning", ImportRecord("", None, link));
    var c := Entry("Completed", ImportRecord("", None, link));
    var es := [a, c];
    var one := [a];
    assert es[..1] == one;
    assert one[..0] == [];
    assert IdsOf(one) == {id};
    assert WorkQueue(one) == [WorkItem(id, Planning)];
    assert UserStatusMap(one) == map[id := Planning];
  }

  // ----- Resume page -----

  /** What `parseInt` returns: a number, or NaN. */
  datatype PageNumber = Num(n: int) | NaN

  predicate StartsWith(s: string, prefix: string) {
    |prefix| <= |s| && s[..|prefix|] == prefix
  }

  predicate EndsWith(s: string, suffix: string) {
    |suffix| <= |s| && s[|s| - |suffix|..] == suffix
  }

  predicate OccursAt(s: string, p: string, k: nat) {
    k + |p| <= |s| && s[k..k + |p|] == p
  }

  /** `s.replace(p, '')` with a string pattern: only the first occurrence is removed. */
  function RemoveFirst(s: string, p: string, from: nat): (r: string)
    requires from <= |s|
    ensures (forall k :: from <= k ==> !OccursAt(s, p, k)) ==> r == s
    ensures forall k :: from <= k && OccursAt(s, p, k) && (forall j :: from <= j < k ==> !OccursAt(s, p, j)) ==>
              r == s[..k] + s[k + |p|..]
    decreases |s| - from
  {
    if from + |p| > |s| then s
    else if OccursAt(s, p, from) then s[..from] + s[from + |p|..]
    else RemoveFirst(s, p, from + 1)
  }

  /**
   * `parseInt(s)` on the text left of a file name: an optional sign, then the longest run of
   * decimal digits, whatever follows it; NaN when there is no digit.
   */
  function ParseInt(s: string): (r: PageNumber)
    ensures |s| == 0 ==> r == NaN
    ensures |s| > 0 && s[0] != '-' && s[0] != '+' ==> r == ParseDigits(s)
    ensures |s| > 0 && s[0] == '+' ==> r == ParseDigits(s[1..])
    ensures |s| > 0 && s[0] == '-' ==>
              (r.NaN? <==> ParseDigits(s[1..]).NaN?) && (r.Num? ==> r.n == -ParseDigits(s[1..]).n)
    ensures AllDigits(s) && |s| > 0 ==> r == Num(Value(s))
  {
    if |s| > 0 && (s[0] == '-' || s[0] == '+') then
      match ParseDigits(s[1..])
      case NaN => NaN
      case Num(v) => if s[0] == '-' then Num(-v) else Num(v)
    else ParseDigits(s)
  }

  /** `parseInt` past the sign: the value of the leading digit run, NaN when there is none. */
  function ParseDigits(s: string): (r: PageNumber)
    ensures r.NaN? <==> DigitRunLength(s, 0) == 0
    ensures r.Num? ==> r.n == Value(s[..DigitRunLength(s, 0)])
    ensures r.NaN? <==> |s| == 0 || !IsDigit(s[0])
    ensures AllDigits(s) && |s| > 0 ==> r == Num(Value(s))
  {
    var n := DigitRunLength(s, 0);
    assert s[..n] == s[0..n];
    if AllDigits(s) then
      DigitRunIs(s, 0, |s|);
      assert s[0..|s|] == s;
      if |s| == 0 then NaN else Num(Value(s))
    else if n == 0 then NaN
    else Num(Value(s[..n]))
  }

  /** Leading digits followed by anything that does not start with a digit parse to the value of the digits. */
  lemma ParseDigitsIgnoresTail(digits: string, rest: string)
    requires |digits| > 0 && AllDigits(digits)
    requires |rest| == 0 || !IsDigit(rest[0])
    ensures ParseDigits(digits + rest) == Num(Value(digits))
  {
    var s := digits + rest;
    assert s[0..|digits|] == digits;
    assert AllDigits(s[0..|digits|]);
    assert |digits| == |s| || !IsDigit(s[|digits|]) by {
      if |rest| > 0 {
        assert s[|digits|] == rest[0];
      }
    }
    DigitRunIs(s, 0, |digits|);
    assert s[..|digits|] == digits;
  }

  /**
   * A partly numeric text: the digits after an optional sign are read up to the first other
   * character, and a minus sign negates them.
   */
  lemma ParseIgnoresTail(digits: string, rest: string)
    requires |digits| > 0 && AllDigits(digits)
    requires |rest| == 0 || !IsDigit(rest[0])
    ensures ParseInt(digits + rest) == Num(Value(digits))
    ensures ParseInt("+" + (digits + rest)) == Num(Value(digits))
    ensures ParseInt("-" + (digits + rest)) == Num(-(Value(digits) as int))
  {
    UnsignedTail(digits, rest);
    PlusTail(digits, rest);
    MinusTail(digits, rest);
  }

  lemma UnsignedTail(digits: string, rest: string)
    requires |digits| > 0 && AllDigits(digits)
    requires |rest| == 0 || !IsDigit(rest[0])
    ensures ParseInt(digits + rest) == Num(Value(digits))
  {
    ParseDigitsIgnoresTail(digits, rest);
    assert (digits + rest)[0] == digits[0];
    UnsignedParse(digits + rest);
  }

  lemma PlusTail(digits: string, rest: string)
    requires |digits| > 0 && AllDigits(digits)
    requires |rest| == 0 || !IsDigit(rest[0])
    ensures ParseInt("+" + (digits + rest)) == Num(Value(digits))
  {
    ParseDigitsIgnoresTail(digits, rest);
    PlusParse(digits + rest);
  }

  lemma MinusTail(digits: string, rest: string)
    requires |digits| > 0 && AllDigits(digits)
    requires |rest| == 0 || !IsDigit(rest[0])
    ensures ParseInt("-" + (digits + rest)) == Num(-(Value(digits) as int))
  {
    ParseDigitsIgnoresTail(digits, rest);
    MinusParse(digits + rest);
  }

  lemma UnsignedParse(s: string)
    requires |s| > 0 && IsDigit(s[0])
    ensures ParseInt(s) == ParseDigits(s)
  {
  }

  lemma PlusParse(s: string)
    ensures ParseInt("+" + s) == ParseDigits(s)
  {
    assert ("+" + s)[1..] == s;
  }

  lemma MinusParse(s: string)
    requires ParseDigits(s).Num?
    ensures ParseInt("-" + s) == Num(-ParseDigits(s).n)
  {
    assert ("-" + s)[1..] == s;
  }

  /** A cached page file: `page_` ... `.json`. */
  predicate IsPageFile(f: string) {
    StartsWith(f, "page_") && EndsWith(f, ".json")
  }

  function PageOfFile(f: string): PageNumber {
    var a := RemoveFirst(f, "page_", 0);
    ParseInt(RemoveFirst(a, ".json", 0))
  }

  /** `Math.max` over parsed numbers: NaN as soon as one of them is NaN. */
  function MaxPage(ps: seq<PageNumber>): (r: PageNumber)
    requires |ps| > 0
    ensures r.NaN? <==> exists i :: 0 <= i < |ps| && ps[i].NaN?
    ensures r.Num? ==> (forall i :: 0 <= i < |ps| ==> ps[i].n <= r.n) && exists i :: 0 <= i < |ps| && ps[i] == r
  {
    if |ps| == 1 then ps[0]
    else
      var m := MaxPage(ps[..|ps| - 1]);
      var last := ps[|ps| - 1];
      assert forall i :: 0 <= i < |ps| - 1 ==> ps[..|ps| - 1][i] == ps[i];
      if m.NaN? || last.NaN? then NaN
      else if last.n > m.n then last
      else m
  }

  /**
   * `files.filter(f => f.startsWith('page_') && f.endsWith('.json'))`. With `PageFilesAppend`,
   * the one-name cases fix the result: the page files of the listing, in listing order.
   */
  function PageFiles(files: seq<string>): (r: seq<string>)
    ensures forall i :: 0 <= i < |r| ==> IsPageFile(r[i])
    ensures forall f :: f in r <==> f in files && IsPageFile(f)
    ensures |r| <= |files|
    ensures |files| == 1 && IsPageFile(files[0]) ==> r == files
    ensures |files| == 1 && !IsPageFile(files[0]) ==> r == []
  {
    if |files| == 0 then []
    else
      var rest := PageFiles(files[1..]);
      assert forall f :: f in files && f != files[0] ==> f in files[1..];
      if IsPageFile(files[0]) then [files[0]] + rest else rest
  }

  /** The resume rule: page 1 with no cached page file, else the largest cached page plus one (NaN if a name does not parse). */
  function ResumeStartPage(files: seq<string>): PageNumber {
    var cached := PageFiles(files);
    if |cached| == 0 then Num(1)
    else
      var m := MaxPage(ParsedPages(cached));
      if m.NaN? then NaN else Num(m.n + 1)
  }

  /** `.map(f => parseInt(...))`: the page number of each name. */
  function ParsedPages(names: seq<string>): (ps: seq<PageNumber>)
    ensures |ps| == |names| && forall i :: 0 <= i < |names| ==> ps[i] == PageOfFile(names[i])
  {
    seq(|names|, i requires 0 <= i < |names| => PageOfFile(names[i]))
  }

  /** The name the scraper writes page `n` under. */
  function PageFileName(n: nat): string {
    "page_" + Show(n) + ".json"
  }

  /** Reading a page number back out of the file name it was cached under gives the number. */
  lemma PageFileNameRoundTrip(n: nat)
    ensures IsPageFile(PageFileName(n)) && PageOfFile(PageFileName(n)) == Num(n)
  {
    var f := PageFileName(n);
    var digits := Show(n);
    assert f[..5] == "page_";
    assert f[|f| - 5..] == ".json";
    StripPrefix(digits);
    StripSuffix(digits);
  }

  lemma StripPrefix(digits: string)
    ensures RemoveFirst("page_" + digits + ".json", "page_", 0) == digits + ".json"
  {
    var f := "page_" + digits + ".json";
    assert OccursAt(f, "page_", 0) by {
      assert f[0..5] == "page_";
    }
    assert f[5..] == digits + ".json";
  }

  lemma StripSuffix(digits: string)
    requires AllDigits(digits)
    ensures RemoveFirst(digits + ".json", ".json", 0) == digits
  {
    var a := digits + ".json";
    assert OccursAt(a, ".json", |digits|) by {
      assert a[|digits|..|digits| + 5] == ".json";
    }
    forall j | 0 <= j < |digits|
      ensures !OccursAt(a, ".json", j)
    {
      assert a[j] == digits[j];
      if j + 5 <= |a| {
        assert a[j..j + 5][0] == a[j];
      }
    }
    assert a[..|digits|] == digits;
    assert a[|digits| + 5..] == [];
  }

  /** Page files named by numbers resume one past the largest number. */
  lemma ResumeFromNames(pages: seq<nat>, names: seq<string>)
    requires |names| == |pages| > 0
    requires forall i :: 0 <= i < |pages| ==> IsPageFile(names[i]) && PageOfFile(names[i]) == Num(pages[i])
    ensures ResumeStartPage(names).Num?
    ensures forall i :: 0 <= i < |pages| ==> pages[i] < ResumeStartPage(names).n
    ensures exists i :: 0 <= i < |pages| && ResumeStartPage(names).n == pages[i] + 1
  {
    PageFilesKeepAll(names);
    var parsed := ParsedPages(names);
    MaxOfNumbers(parsed, pages);
  }

  /** The largest of a list of parsed numbers with no NaN among them is one of them and bounds them all. */
  lemma MaxOfNumbers(ps: seq<PageNumber>, pages: seq<nat>)
    requires |ps| == |pages| > 0
    requires forall i :: 0 <= i < |ps| ==> ps[i] == Num(pages[i])
    ensures MaxPage(ps).Num?
    ensures forall i :: 0 <= i < |pages| ==> pages[i] <= MaxPage(ps).n
    ensures exists i :: 0 <= i < |pages| && MaxPage(ps).n == pages[i]
  {
    var m := MaxPage(ps);
    var k :| 0 <= k < |ps| && ps[k] == m;
    assert m.n == pages[k];
  }

  /**
   * Resuming from the scraper's own cache: with no page file the run starts at page 1, and
   * otherwise at one past the highest page cached, whatever other files sit in the directory
   * and in whatever order the listing comes.
   */
  lemma ResumeAfterCachedPages(pages: seq<nat>, files: seq<string>)
    requires forall i :: 0 <= i < |pages| ==> PageFileName(pages[i]) in files
    requires forall f :: f in files && IsPageFile(f) ==> exists i :: 0 <= i < |pages| && f == PageFileName(pages[i])
    ensures |pages| == 0 ==> ResumeStartPage(files) == Num(1)
    ensures |pages| > 0 ==> (ResumeStartPage(files).Num?
        && (forall i :: 0 <= i < |pages| ==> pages[i] < ResumeStartPage(files).n)
        && (exists i :: 0 <= i < |pages| && ResumeStartPage(files).n == pages[i] + 1))
  {
    var cached := PageFiles(files);
    if |cached| > 0 {
      var parsed := ParsedPages(cached);
      CachedNamesParse(pages, cached);
      var m := MaxPage(parsed);
      assert m.Num?;
      forall i | 0 <= i < |pages|
        ensures pages[i] <= m.n
      {
        PageFileNameRoundTrip(pages[i]);
        var k :| 0 <= k < |cached| && cached[k] == PageFileName(pages[i]);
        assert parsed[k] == Num(pages[i]);
      }
      var k :| 0 <= k < |parsed| && parsed[k] == m;
      assert PageOfFile(cached[k]).n in pages;
      var i :| 0 <= i < |pages| && m == Num(pages[i]);
      ResumeOneAfterMax(files);
    } else if |pages| > 0 {
      PageFileNameRoundTrip(pages[0]);
      assert false;
    }
  }

  lemma ResumeOneAfterMax(files: seq<string>)
    requires |PageFiles(files)| > 0 && MaxPage(ParsedPages(PageFiles(files))).Num?
    ensures ResumeStartPage(files) == Num(MaxPage(ParsedPages(PageFiles(files))).n + 1)
  {
    var m := MaxPage(ParsedPages(PageFiles(files)));
    assert ResumeStartPage(files) == if m.NaN? then NaN else Num(m.n + 1);
  }

  /** Names the scraper wrote for listed pages parse back to those pages. */
  lemma {:induction false} CachedNamesParse(pages: seq<nat>, cached: seq<string>)
    requires forall f :: f in cached ==> exists i :: 0 <= i < |pages| && f == PageFileName(pages[i])
    ensures forall k :: 0 <= k < |cached| ==> PageOfFile(cached[k]).Num? && PageOfFile(cached[k]).n in pages
  {
    forall k | 0 <= k < |cached|
      ensures PageOfFile(cached[k]).Num? && PageOfFile(cached[k]).n in pages
    {
      assert cached[k] in cached;
      var i :| 0 <= i < |pages| && cached[k] == PageFileName(pages[i]);
      PageFileNameRoundTrip(pages[i]);
    }
  }

  /** The filter works name by name: the page files of two listings end to end. */
  lemma {:induction false} PageFilesAppend(a: seq<string>, b: seq<string>)
    ensures PageFiles(a + b) == PageFiles(a) + PageFiles(b)
  {
    if |a| > 0 {
      assert (a + b)[0] == a[0] && (a + b)[1..] == a[1..] + b;
      PageFilesAppend(a[1..], b);
    } else {
      assert a + b == b;
    }
  }

  /** A listing with no page file yields none. */
  lemma NoPageFiles(others: seq<string>)
    requires forall f :: f in others ==> !IsPageFile(f)
    ensures PageFiles(others) == []
  {
    if |PageFiles(others)| > 0 {
      assert PageFiles(others)[0] in PageFiles(others);
    }
  }

  /** Names that are not page files change nothing, wherever they sit in the listing. */
  lemma PageFilesSkipOthers(before: seq<string>, others: seq<string>, after: seq<string>)
    requires forall f :: f in others ==> !IsPageFile(f)
    ensures PageFiles(before + others + after) == PageFiles(before + after)
  {
    PageFilesAppend(before + others, after);
    PageFilesDropOthers(before, others);
    PageFilesAppend(before, after);
  }

  /** Trailing names that are not page files change nothing. */
  lemma PageFilesDropOthers(before: seq<string>, others: seq<string>)
    requires forall f :: f in others ==> !IsPageFile(f)
    ensures PageFiles(before + others) == PageFiles(before)
  {
    PageFilesAppend(before, others);
    NoPageFiles(others);
    assert PageFiles(before) + [] == PageFiles(before);
  }

  lemma {:induction false} PageFilesKeepAll(files: seq<string>)
    requires forall i :: 0 <= i < |files| ==> IsPageFile(files[i])
    ensures PageFiles(files) == files
  {
    if |files| > 0 {
      PageFilesKeepAll(files[1..]);
    }
  }

  /** A file named `page_.json` has no number in it, so the resume page is NaN. */
  lemma UnnumberedPageFileGivesNaN()
    ensures ResumeStartPage(["page_.json"]) == NaN
  {
    var f := "page_.json";
    assert IsPageFile(f) by {
      assert f[..5] == "page_";
      assert f[|f| - 5..] == ".json";
    }
    assert OccursAt(f, "page_", 0) by {
      assert f[0..5] == "page_";
    }
    var a := RemoveFirst(f, "page_", 0);
    assert a == ".json" by {
      assert a == f[..0] + f[5..];
    }
    assert OccursAt(a, ".json", 0) by {
      assert a[0..5] == ".json";
    }
    assert RemoveFirst(a, ".json", 0) == [];
    assert PageFiles([f]) == [f] by {
      var one: seq<string> := [f];
      assert one[1..] == [];
    }
  }

  // ----- Rows -----

  /**
   * A related title as the scraper stores it: English title falling back to romaji, the medium
   * cover, and the node's status, format, season and season year as they are.
   */
  function RelationOf(e: RelationEdge): (r: Relation)
    ensures r.id == e.node.id && r.relationType == e.relationType && r.image == e.node.coverMedium
    ensures r.status == e.node.status && r.format == e.node.format
    ensures r.season == e.node.season && r.seasonYear == e.node.seasonYear
    ensures Filled(e.node.english) ==> r.title == e.node.english
    ensures !Filled(e.node.english) ==> r.title == e.node.romaji
  {
    Relation(e.node.id, e.relationType, OrText(e.node.english, e.node.romaji), e.node.coverMedium,
             e.node.status, e.node.format, e.node.season, e.node.seasonYear)
  }

  function Relations(edges: seq<RelationEdge>): (rs: seq<Relation>)
    ensures |rs| == |edges|
    ensures forall i :: 0 <= i < |edges| ==> rs[i] == RelationOf(edges[i])
  {
    seq(|edges|, i requires 0 <= i < |edges| => RelationOf(edges[i]))
  }

  /**
   * The row the scraper builds from a catalog entry. Reading the studio names of an entry that
   * has none throws, which fails the whole page, so that case gives None.
   */
  function ScrapeRow(m: Media, userMap: map<int, Status>): (r: Option<AnimeRow>)
    ensures r.Some? <==> m.studios.Some?
    ensures r.Some? ==> r.value.id == m.id && r.value.studios == m.studios.value && r.value.isAdult == m.isAdult
    ensures r.Some? ==> (r.value.ustatus.Some? <==> m.id in userMap)
    ensures r.Some? && m.id in userMap ==> r.value.ustatus == Some(userMap[m.id])
    ensures r.Some? ==> |r.value.relations| == |m.relations.GetOr([])|
    ensures r.Some? ==> r.value.relations == Relations(m.relations.GetOr([]))
  {
    match m.studios
    case None => None
    case Some(names) =>
      Some(AnimeRow(
        m.id,
        m.title.romaji,
        Some(OrTitle(m.title.english, m.title.romaji)),
        m.title.native,
        OrText(m.coverImage.extraLarge, m.coverImage.large),
        FormatDateDefaulting(m.startDate),
        FormatDateDefaulting(m.endDate),
        names,
        m.details,
        Some(m.release),
        m.isAdult,
        if m.id in userMap then Some(userMap[m.id]) else None,
        Relations(m.relations.GetOr([]))))
  }

  /**
   * The scraper and the import action build the same row from a catalog entry, except for the
   * columns only the scraper fills: the adult flag, the user's status and the relations.
   */
  lemma ScrapeRowExtendsRichRow(m: Media, userMap: map<int, Status>)
    requires m.studios.Some?
    ensures ScrapeRow(m, userMap).Some?
    ensures ScrapeRow(m, userMap).value.(isAdult := None, ustatus := None, relations := []) == RichRow(m)
  {
  }

  /**
   * Relation `i` of a scraped row is edge `i` of the entry, titled with the related title's
   * English name, or its romaji name when the English one is missing or empty.
   */
  lemma ScrapeRowRelation(m: Media, userMap: map<int, Status>, i: nat)
    requires m.studios.Some? && i < |m.relations.GetOr([])|
    ensures var rel := ScrapeRow(m, userMap).value.relations[i];
      var e := m.relations.GetOr([])[i];
      && rel.id == e.node.id && rel.relationType == e.relationType && rel.image == e.node.coverMedium
      && rel.title == (if Filled(e.node.english) then e.node.english else e.node.romaji)
  {
  }

  /** `mediaList.map(...)`: None as soon as one entry cannot be mapped. */
  function RowsOf(ms: seq<Media>, userMap: map<int, Status>): (r: Option<seq<AnimeRow>>)
    ensures r.Some? <==> forall i :: 0 <= i < |ms| ==> ms[i].studios.Some?
    ensures r.Some? ==> |r.value| == |ms| && forall i :: 0 <= i < |ms| ==> Some(r.value[i]) == ScrapeRow(ms[i], userMap)
  {
    if |ms| == 0 then Some([])
    else
      var front := ms[..|ms| - 1];
      var last := ms[|ms| - 1];
      var prev := RowsOf(front, userMap);
      assert forall i :: 0 <= i < |front| ==> front[i] == ms[i];
      if prev.None? then None
      else if last.studios.None? then None
      else Some(prev.value + [ScrapeRow(last, userMap).value])
  }

  // ----- One page -----

  /** What the API answered for a page: an error, or the page's media list (possibly null) and `hasNextPage`. */
  datatype PageResponse = RequestFailed(message: string) | Fetched(media: Option<seq<Media>>, hasNext: bool)

  /** What `fetchPage` returns. */
  datatype PageResult = PageOk(count: nat, hasNext: bool) | PageErr(error: string, page: int)

  /** The result together with what the page wrote: the cache file's contents and the upserted rows. */
  datatype PageEffect = PageEffect(result: PageResult, cached: Option<seq<Media>>, upserted: Option<seq<AnimeRow>>)

  /** Stands in for the message of the error thrown when an entry's studio list is read from nothing. */
  const MappingFailure := "Cannot read properties of null (reading 'nodes')"

  /**
   * `fetchPage(page)`: an empty page ends the archive without writing anything; a non-empty
   * page is cached first, then mapped, then upserted in one call.
   */
  function FetchPage(page: int, response: PageResponse, userMap: map<int, Status>,
                     upsert: seq<AnimeRow> -> Option<string>): (e: PageEffect)
    ensures e.result.PageErr? ==> e.result.page == page
    ensures e.cached.Some? <==> response.Fetched? && response.media.Some? && |response.media.value| > 0
    ensures e.cached.Some? ==> e.cached == response.media
    ensures e.result.PageOk? <==>
              response.Fetched? && (e.cached.None? || (e.upserted.Some? && upsert(e.upserted.value).None?))
    ensures e.result.PageOk? && e.cached.None? ==> e.result == PageOk(0, false)
    ensures e.result.PageOk? && e.cached.Some? ==> e.result == PageOk(|e.cached.value|, response.hasNext)
    ensures e.upserted.Some? ==> e.cached.Some? && e.upserted == RowsOf(e.cached.value, userMap)
  {
    match response
    case RequestFailed(msg) => PageEffect(PageErr(msg, page), None, None)
    case Fetched(media, hasNext) =>
      if media.None? || |media.value| == 0 then PageEffect(PageOk(0, false), None, None)
      else
        match RowsOf(media.value, userMap)
        case None => PageEffect(PageErr(MappingFailure, page), media, None)
        case Some(rows) =>
          match upsert(rows)
          case Some(err) => PageEffect(PageErr(err, page), media, Some(rows))
          case None => PageEffect(PageOk(|rows|, hasNext), media, Some(rows))
  }

  /** A page that ends the run: fetched with no next page, or empty. */
  predicate EndsRun(r: PageResult) {
    r.PageOk? && !r.hasNext
  }

  /**
   * A page ends the run exactly when the API answered and either the page was empty or every
   * entry was stored and the API said there is no next page. A page whose write failed never
   * ends the run, even when it is the last one.
   */
  lemma PageEndsRun(page: int, response: PageResponse, userMap: map<int, Status>,
                    upsert: seq<AnimeRow> -> Option<string>)
    ensures var e := FetchPage(page, response, userMap, upsert);
      EndsRun(e.result) <==> (response.Fetched? &&
        (e.cached.None? || (!response.hasNext && e.upserted.Some? && upsert(e.upserted.value).None?)))
  {
  }

  /** The cache file is written before the rows are mapped or stored, so a page whose write failed is still cached. */
  lemma FailedPageStillCached(page: int, ms: seq<Media>, hasNext: bool, userMap: map<int, Status>,
                              upsert: seq<AnimeRow> -> Option<string>)
    requires |ms| > 0
    ensures var e := FetchPage(page, Fetched(Some(ms), hasNext), userMap, upsert);
      e.cached == Some(ms) && (e.result.PageErr? <==> RowsOf(ms, userMap).None? || upsert(RowsOf(ms, userMap).value).Some?)
  {
  }

  // ----- The archive loop -----

  /** Pages requested per round. */
  const Concurrency := 2

  /**
   * The loop from page `current` for at most `fuel` rounds: each round requests `Concurrency`
   * consecutive pages and moves on by `Concurrency` whatever they returned; a round in which
   * some page ends the run is the last. `outcome(p)` is what requesting page `p` returned.
   * Returns the pages requested, in order, and whether the run ended.
   */
  function Scrape(current: int, outcome: int -> PageResult, fuel: nat): (seq<int>, bool)
    decreases fuel
  {
    if fuel == 0 then ([], false)
    else
      var round := Round(current);
      if RoundEnds(round, outcome) then (round, true)
      else
        var (rest, ended) := Scrape(current + Concurrency, outcome, fuel - 1);
        (round + rest, ended)
  }

  /** The pages one round requests. */
  function Round(current: int): (pages: seq<int>)
    ensures |pages| == Concurrency && forall i :: 0 <= i < |pages| ==> pages[i] == current + i
  {
    seq(Concurrency, i requires 0 <= i < Concurrency => current + i)
  }

  predicate RoundEnds(pages: seq<int>, outcome: int -> PageResult) {
    exists i :: 0 <= i < |pages| && EndsRun(outcome(pages[i]))
  }

  /**
   * No page is retried or skipped: the run requests consecutive pages from its start, a whole
   * number of rounds of them. A page that failed (a rate limit included) is never asked for again.
   */
  lemma {:induction false} ScrapeRequestsConsecutivePages(current: int, outcome: int -> PageResult, fuel: nat)
    ensures var (pages, _) := Scrape(current, outcome, fuel);
      |pages| % Concurrency == 0 && |pages| <= Concurrency * fuel &&
      forall i :: 0 <= i < |pages| ==> pages[i] == current + i
    decreases fuel
  {
    if fuel > 0 && !RoundEnds(Round(current), outcome) {
      ScrapeRequestsConsecutivePages(current + Concurrency, outcome, fuel - 1);
    }
  }

  /**
   * The run ends in the first round holding a page that ends it, and only there: no page of an
   * earlier round ended the run, and a run that did not end used all its rounds.
   */
  lemma {:induction false} ScrapeEndsAtFirstFinalPage(current: int, outcome: int -> PageResult, fuel: nat)
    ensures var (pages, ended) := Scrape(current, outcome, fuel);
      NoEarlierEnd(pages, outcome) && EndedInLastRound(pages, ended, outcome) &&
      (!ended ==> |pages| == Concurrency * fuel)
    decreases fuel
  {
    if fuel > 0 {
      var round := Round(current);
      if !RoundEnds(round, outcome) {
        var next := current + Concurrency;
        ScrapeEndsAtFirstFinalPage(next, outcome, fuel - 1);
        ScrapeRequestsConsecutivePages(next, outcome, fuel - 1);
        EndsAfterRound(round, Scrape(next, outcome, fuel - 1).0, Scrape(next, outcome, fuel - 1).1, outcome);
      } else {
        assert round[|round| - Concurrency..] == round;
      }
    }
  }

  /** No page before the last round ended the run. */
  predicate NoEarlierEnd(pages: seq<int>, outcome: int -> PageResult) {
    forall i :: 0 <= i < |pages| - Concurrency ==> !EndsRun(outcome(pages[i]))
  }

  /** The run ended exactly when some page of its last round ends it. */
  predicate EndedInLastRound(pages: seq<int>, ended: bool, outcome: int -> PageResult) {
    ended <==> |pages| >= Concurrency && RoundEnds(pages[|pages| - Concurrency..], outcome)
  }

  /** Putting a round that did not end the run in front of the rest of a run. */
  lemma EndsAfterRound(round: seq<int>, rest: seq<int>, ended: bool, outcome: int -> PageResult)
    requires |round| == Concurrency && !RoundEnds(round, outcome)
    requires NoEarlierEnd(rest, outcome) && EndedInLastRound(rest, ended, outcome)
    requires |rest| % Concurrency == 0
    ensures NoEarlierEnd(round + rest, outcome) && EndedInLastRound(round + rest, ended, outcome)
  {
    var pages := round + rest;
    forall i | 0 <= i < |pages| - Concurrency
      ensures !EndsRun(outcome(pages[i]))
    {
      if i >= Concurrency {
        assert pages[i] == rest[i - Concurrency];
      } else {
        assert pages[i] == round[i];
      }
    }
    if |rest| > 0 {
      assert pages[|pages| - Concurrency..] == rest[|rest| - Concurrency..];
    } else {
      assert pages[|pages| - Concurrency..] == round;
    }
  }

  /** The pages of earlier rounds put in front of a run. */
  function After(earlier: seq<int>, run: (seq<int>, bool)): (seq<int>, bool) {
    (earlier + run.0, run.1)
  }

  /** Whether some page of a round ends the run, page by page as the loop over results reads them. */
  method CheckRound(round: seq<int>, outcome: int -> PageResult) returns (hit: bool)
    ensures hit <==> RoundEnds(round, outcome)
  {
    var i := 0;
    hit := false;
    while i < |round|
      invariant 0 <= i <= |round|
      invariant hit <==> exists j :: 0 <= j < i && EndsRun(outcome(round[j]))
    {
      if EndsRun(outcome(round[i])) {
        hit := true;
      }
      i := i + 1;
    }
  }

  lemma AfterRound(requested: seq<int>, current: int, outcome: int -> PageResult, left: nat)
    requires left > 0 && !RoundEnds(Round(current), outcome)
    ensures After(requested, Scrape(current, outcome, left))
         == After(requested + Round(current), Scrape(current + Concurrency, outcome, left - 1))
  {
    var rest := Scrape(current + Concurrency, outcome, left - 1).0;
    assert requested + (Round(current) + rest) == (requested + Round(current)) + rest;
  }

  /**
   * The `while (hasMore)` loop, for at most `fuel` rounds: the pages it requested and whether
   * a page ended the run.
   */
  method ScrapeLoop(start: int, outcome: int -> PageResult, fuel: nat) returns (requested: seq<int>, ended: bool)
    ensures (requested, ended) == Scrape(start, outcome, fuel)
    ensures forall i :: 0 <= i < |requested| ==> requested[i] == start + i
  {
    requested := [];
    ended := false;
    var current := start;
    var left: nat := fuel;
    assert requested + Scrape(start, outcome, fuel).0 == Scrape(start, outcome, fuel).0;
    while left > 0 && !ended
      invariant current == start + |requested|
      invariant forall i :: 0 <= i < |requested| ==> requested[i] == start + i
      invariant ended ==> (requested, true) == Scrape(start, outcome, fuel)
      invariant !ended ==> After(requested, Scrape(current, outcome, left)) == Scrape(start, outcome, fuel)
      decreases left
    {
      var round := Round(current);
      var hit := CheckRound(round, outcome);
      if !hit {
        AfterRound(requested, current, outcome, left);
      }
      requested := requested + round;
      current := current + Concurrency;
      left := left - 1;
      ended := hit;
    }
    if !ended {
      assert Scrape(current, outcome, left) == ([], false);
      assert requested + [] == requested;
    }
  }
}
