/**
 * tasks/hiveworks util: URLs of a Hiveworks comic site, and the small string
 * parsers its scrapers use on archive pages.
 */
module Hiveworks {
  import opened Wrappers
  import opened Strings

  const ComicPrefix := "comic/"

  /** `urlComic(base, slug)`; the default slug is the empty string. */
  function UrlComic(base: string, slug: string): (r: string)
    ensures StartsWith(slug, ComicPrefix) ==> r == base + slug
    ensures !StartsWith(slug, ComicPrefix) ==> r == base + ComicPrefix + slug
  {
    if StartsWith(slug, ComicPrefix) then base + slug else base + ComicPrefix + slug
  }

  /** Every comic URL lies under `base + 'comic/'`. */
  lemma UrlComicUnderComics(base: string, slug: string)
    ensures StartsWith(UrlComic(base, slug), base + ComicPrefix)
  {
    var r := UrlComic(base, slug);
    if StartsWith(slug, ComicPrefix) {
      assert slug == ComicPrefix + slug[6..];
      assert r == base + ComicPrefix + slug[6..];
    } else {
      assert r == base + ComicPrefix + slug;
    }
    assert r[..|base + ComicPrefix|] == base + ComicPrefix;
  }

  /** With the default slug the URL is the comic index itself. */
  lemma UrlComicDefault(base: string)
    ensures UrlComic(base, "") == base + ComicPrefix
  {
  }

  /** A slug without its `comic/` prefix leads to the same page as with it. */
  lemma UrlComicPrefixOptional(base: string, slug: string)
    requires !StartsWith(slug, ComicPrefix)
    ensures UrlComic(base, ComicPrefix + slug) == UrlComic(base, slug)
  {
    assert (ComicPrefix + slug)[..6] == ComicPrefix;
  }

  /** `urlArchive(base)` */
  function UrlArchive(base: string): (r: string)
    ensures r == UrlComic(base, "archive/")
  {
    assert "archive/"[0] != ComicPrefix[0];
    base + ComicPrefix + "archive/"
  }

  // ------------------------------------------------------------------ getYear

  /** Four digits start at `i`. */
  predicate FourDigitsAt(s: string, i: nat)
  {
    i + 4 <= |s| && IsDigit(s[i]) && IsDigit(s[i + 1]) && IsDigit(s[i + 2]) && IsDigit(s[i + 3])
  }

  /** The leftmost position from `i` on where four digits start. */
  function FirstFourDigits(s: string, i: nat): (r: Option<nat>)
    requires i <= |s|
    ensures r.None? ==> forall j :: i <= j <= |s| ==> !FourDigitsAt(s, j)
    ensures r.Some? ==> i <= r.value && FourDigitsAt(s, r.value)
    ensures r.Some? ==> forall j :: i <= j < r.value ==> !FourDigitsAt(s, j)
    decreases |s| - i
  {
    if i == |s| then None
    else if FourDigitsAt(s, i) then Some(i)
    else FirstFourDigits(s, i + 1)
  }

  /** `getYear`: the leftmost four digits in a row (`/([0-9]{4})/`), or `null`. */
  function GetYear(str: string): (r: Option<string>)
    ensures r.None? <==> forall j :: 0 <= j <= |str| ==> !FourDigitsAt(str, j)
    ensures r.Some? ==> |r.value| == 4 && forall k :: 0 <= k < 4 ==> IsDigit(r.value[k])
    ensures r.Some? ==> exists j :: 0 <= j && FourDigitsAt(str, j) && str[j..j + 4] == r.value
    ensures r.Some? ==> exists j :: 0 <= j && FourDigitsAt(str, j) && (forall k :: 0 <= k < j ==> !FourDigitsAt(str, k)) && r.value == str[j..j + 4]
  {
    match FirstFourDigits(str, 0)
    case None => None
    case Some(j) => Some(str[j..j + 4])
  }

  /** The year written after words without digits, as in `January, 2018`. */
  lemma {:induction false} YearAfterWords(words: string, year: string, rest: string)
    requires forall k :: 0 <= k < |words| ==> !IsDigit(words[k])
    requires |year| == 4 && forall k :: 0 <= k < 4 ==> IsDigit(year[k])
    ensures GetYear(words + year + rest) == Some(year)
  {
    var s := words + year + rest;
    var n := |words|;
    assert FourDigitsAt(s, n) by {
      assert s[n] == year[0] && s[n + 1] == year[1] && s[n + 2] == year[2] && s[n + 3] == year[3];
    }
    forall j | 0 <= j < n ensures !FourDigitsAt(s, j) {
      assert s[j] == words[j];
    }
    FirstFourDigitsFrom(s, 0, n);
    assert s[n..n + 4] == year;
  }

  /** Where no four digits start before `n` but they start at `n`, the search stops at `n`. */
  lemma {:induction false} FirstFourDigitsFrom(s: string, i: nat, n: nat)
    requires i <= n <= |s| && FourDigitsAt(s, n)
    requires forall j :: i <= j < n ==> !FourDigitsAt(s, j)
    ensures FirstFourDigits(s, i) == Some(n)
    decreases n - i
  {
    if i < n {
      FirstFourDigitsFrom(s, i + 1, n);
    }
  }

  // -------------------------------------------------------- separateDateTitle

  const DateSeparator := " - "

  datatype DateTitle = DateTitle(date: string, title: string)

  /** `separateDateTitle`: the text before the first ` - `, and the rest. */
  function SeparateDateTitle(dateTitle: string): DateTitle
  {
    var bits := Split(dateTitle, DateSeparator);
    DateTitle(bits[0], Join(bits[1..], DateSeparator))
  }

  /**
   * The date never holds the separator; with a separator in the input, date,
   * separator and title give back the input; without one, the date is the
   * whole input and the title is empty.
   */
  lemma SeparateDateTitleParts(dateTitle: string)
    ensures !Contains(SeparateDateTitle(dateTitle).date, DateSeparator)
    ensures Contains(dateTitle, DateSeparator) ==>
      SeparateDateTitle(dateTitle).date + DateSeparator + SeparateDateTitle(dateTitle).title == dateTitle
    ensures !Contains(dateTitle, DateSeparator) ==> SeparateDateTitle(dateTitle) == DateTitle(dateTitle, "")
  {
    var bits := Split(dateTitle, DateSeparator);
    SplitPartsFree(dateTitle, DateSeparator);
    SplitSingleIffAbsent(dateTitle, DateSeparator);
    SplitJoin(dateTitle, DateSeparator);
    if Contains(dateTitle, DateSeparator) {
      assert |bits| >= 2;
      assert Join(bits, DateSeparator) == bits[0] + DateSeparator + Join(bits[1..], DateSeparator);
    } else {
      SplitWithout(dateTitle, DateSeparator);
    }
  }
}
