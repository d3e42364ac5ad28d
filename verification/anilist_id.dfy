/**
 * Extraction of an AniList id from an export record's `al` permalink: the search the
 * pattern `anilist\.co\/anime\/(\d+)` performs, written out over the string, followed
 * by `parseInt(match[1], 10)`.
 */
module AniListId {
  import opened Base
  import opened Decimal

  /** The literal part of the pattern, with its escaped dot and slashes as plain characters. */
  const Pattern: string := "anilist.co/anime/"

  /** The pattern matches at `k`: the literal text starts there and at least one digit follows it. */
  predicate MatchAt(s: string, k: int) {
    && 0 <= k
    && k + |Pattern| < |s|
    && s[k..k + |Pattern|] == Pattern
    && IsDigit(s[k + |Pattern|])
  }

  /** `k` is the leftmost position where the pattern matches, which is where a regex search stops. */
  predicate FirstMatchAt(s: string, k: int) {
    MatchAt(s, k) && forall j :: 0 <= j < k ==> !MatchAt(s, j)
  }

  /** Length of the maximal run of digits starting at `j`: what the greedy `(\d+)` captures. */
  function DigitRunLength(s: string, j: nat): (n: nat)
    requires j <= |s|
    ensures j + n <= |s|
    ensures AllDigits(s[j..j + n])
    ensures j + n == |s| || !IsDigit(s[j + n])
    decreases |s| - j
  {
    if j < |s| && IsDigit(s[j]) then
      var n := DigitRunLength(s, j + 1);
      assert s[j..j + n + 1] == [s[j]] + s[j + 1..j + 1 + n];
      1 + n
    else
      0
  }

  /** Any run of digits that ends at a non-digit (or the end) is the maximal run. */
  lemma {:induction false} DigitRunIs(s: string, j: nat, n: nat)
    requires j + n <= |s|
    requires AllDigits(s[j..j + n])
    requires j + n == |s| || !IsDigit(s[j + n])
    ensures DigitRunLength(s, j) == n
    decreases n
  {
    if n > 0 {
      assert s[j..j + n][0] == s[j];
      assert s[j + 1..j + n] == s[j..j + n][1..];
      DigitRunIs(s, j + 1, n - 1);
    }
  }

  /** The leftmost match at or after `from`, if any. */
  function FindMatch(s: string, from: nat): (r: Option<nat>)
    ensures r.Some? ==> from <= r.value && MatchAt(s, r.value)
    ensures r.Some? ==> forall j :: from <= j < r.value ==> !MatchAt(s, j)
    ensures r.None? ==> forall j :: from <= j ==> !MatchAt(s, j)
    decreases |s| - from
  {
    if from + |Pattern| >= |s| then None
    else if MatchAt(s, from) then Some(from)
    else FindMatch(s, from + 1)
  }

  /**
   * `getAniListId(url)`: null for a missing or empty link; otherwise the value of the digits
   * captured at the leftmost match, or null when the pattern matches nowhere.
   */
  function ExtractId(url: Option<string>): (r: Option<nat>)
    ensures url.None? || url == Some("") ==> r.None?
    ensures r.None? <==> url.None? || NoMatch(url.value)
    ensures forall k :: url.Some? && FirstMatchAt(url.value, k) ==> r == Some(Captured(url.value, k))
  {
    match url
    case None => None
    case Some(s) =>
      if |s| == 0 then None
      else
        match FindMatch(s, 0)
        case None => None
        case Some(k) =>
          FirstMatchUnique(s, k);
          Some(Captured(s, k))
  }

  /** A string has at most one leftmost match. */
  lemma FirstMatchUnique(s: string, k: int)
    requires FirstMatchAt(s, k)
    ensures forall j :: FirstMatchAt(s, j) ==> j == k
  {
  }

  /** The pattern matches nowhere in `s`. */
  ghost predicate NoMatch(s: string) {
    forall k :: !MatchAt(s, k)
  }

  /** `parseInt(match[1], 10)` for a match at `k`: the value of the digit run after the literal text. */
  function Captured(s: string, k: int): nat
    requires MatchAt(s, k)
  {
    var start := k + |Pattern|;
    Value(s[start..start + DigitRunLength(s, start)])
  }

  /** The id as the callers use it: `if (!alId)` also discards an id of 0. */
  function ResolvedId(url: Option<string>): (r: Option<nat>)
    ensures r.Some? ==> r.value > 0 && ExtractId(url) == r
    ensures r.None? ==> ExtractId(url) in {None, Some(0)}
  {
    match ExtractId(url)
    case Some(n) => if n == 0 then None else Some(n)
    case None => None
  }

  /** The permalink an AniList export writes for a title. */
  function ProfileLink(n: nat): string {
    "https://anilist.co/anime/" + Show(n)
  }

  /**
   * Extraction inverts the permalink format: a link built from `n`, followed by anything
   * that does not continue the digit run (a slug such as "/one-piece", or nothing), gives `n`.
   */
  lemma ExtractProfileLink(n: nat, rest: string)
    requires rest == [] || !IsDigit(rest[0])
    ensures ExtractId(Some(ProfileLink(n) + rest)) == Some(n)
  {
    var s := ProfileLink(n) + rest;
    var digits := Show(n);
    var start := 8 + |Pattern|;
    LinkLayout(n, rest);
    LinkFirstMatch(s);
    if rest != [] {
      assert s[start + |digits|] == rest[0];
    }
    DigitRunIs(s, start, |digits|);
    assert s[start..start + DigitRunLength(s, start)] == digits;
  }

  lemma LinkLayout(n: nat, rest: string)
    ensures var s := ProfileLink(n) + rest;
      && |s| == 8 + |Pattern| + |Show(n)| + |rest|
      && s[..8] == "https://"
      && s[8..8 + |Pattern|] == Pattern
      && s[8 + |Pattern|..8 + |Pattern| + |Show(n)|] == Show(n)
      && s[8 + |Pattern| + |Show(n)|..] == rest
  {
    assert "https://anilist.co/anime/" == "https://" + Pattern;
  }

  /** In a string laid out as "https://" + pattern + digit, the first match is right after the scheme. */
  lemma LinkFirstMatch(s: string)
    requires |s| > 8 + |Pattern|
    requires s[..8] == "https://" && s[8..8 + |Pattern|] == Pattern && IsDigit(s[8 + |Pattern|])
    ensures FirstMatchAt(s, 8)
  {
    forall j | 0 <= j < 8
      ensures !MatchAt(s, j)
    {
      assert s[j] == s[..8][j] == "https://"[j] != Pattern[0];
      assert s[j..j + |Pattern|][0] == s[j];
    }
  }

  /** The worked example of the export format: the link for One Piece yields 21. */
  lemma OnePieceExample()
    ensures ResolvedId(Some("https://anilist.co/anime/21/one-piece")) == Some(21)
  {
    assert Show(21) == "21";
    assert "https://anilist.co/anime/21/one-piece" == ProfileLink(21) + "/one-piece";
    ExtractProfileLink(21, "/one-piece");
  }

  /** A link to another site has no match and yields null. */
  lemma ForeignLinkExample()
    ensures ExtractId(Some("https://example.com/foo")) == None
  {
    var s := "https://example.com/foo";
    forall k | 0 <= k
      ensures !MatchAt(s, k)
    {
    }
  }
}
