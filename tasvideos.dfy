/**
 * callisto-task-tasvideos, search: reads a TASVideos RSS feed, normalises
 * its items and reports the ones not seen before, through the cache.
 *
 * Fetching and parsing the feed (`rssParse`), converting HTML to Markdown
 * (`htmlToMarkdown`) and matching the title pattern (`getTitleInfo`) are
 * given as parameters: the model takes the parsed feed, a converter, and a
 * function that either splits a title or reports that it does not match.
 */
module TasVideos {
  import opened Wrappers
  import opened Strings
  import Cache

  /** The fields of a parsed feed item that are read; `mediaPlayerUrl` is `media:group.media:player.@.url`, if present. */
  datatype RssItem = RssItem(
    guid: string, title: string, imageUrl: string, comments: string, date: string,
    description: string, categories: seq<string>, mediaPlayerUrl: Option<string>, link: string)

  /** The six groups of the title pattern. */
  datatype TitleInfo = TitleInfo(id: string, console: string, game: string, author: string, duration: string, publisher: string)

  /** The normalised item, apart from `id` and `title`, which the cache item holds. */
  datatype Details = Details(
    titleOriginal: string, image: string, comments: string, date: string, description: string,
    categories: seq<string>, categoriesWithoutGenre: seq<string>, youtubeLink: Option<string>, link: string)

  type Tas = Cache.Item<Details>

  const GenrePrefix := "Genre:"
  const BareLink := "(//tasvideos.org"
  const FullLink := "(http://tasvideos.org"

  /** `searchURL`: the feed of one publication type. */
  function SearchUrl(feedType: string): string
  {
    "http://tasvideos.org/" + feedType + ".rss"
  }

  /** The cache namespace of a feed: the task id, `$`, the feed type. */
  function SearchCacheId(taskId: string, feedType: string): (ns: string)
    ensures |ns| == |taskId| + 1 + |feedType|
    ensures ns[..|taskId|] == taskId && ns[|taskId|] == '$' && ns[|taskId| + 1..] == feedType
  {
    taskId + "$" + feedType
  }

  /** Different feeds of one task never share a namespace. */
  lemma SearchCacheIdInjective(taskId: string, a: string, b: string)
    requires SearchCacheId(taskId, a) == SearchCacheId(taskId, b)
    ensures a == b
  {
    assert a == SearchCacheId(taskId, a)[|taskId| + 1..];
  }

  /** `removeGenres`: the categories, in order, that do not start with `Genre:`. */
  function RemoveGenres(categories: seq<string>): (r: seq<string>)
    ensures |r| <= |categories|
    ensures forall c :: c in r <==> c in categories && !StartsWith(c, GenrePrefix)
  {
    if categories == [] then []
    else
      (if StartsWith(categories[0], GenrePrefix) then [] else [categories[0]])
      + RemoveGenres(categories[1..])
  }

  /** The filter keeps the order: it works piece by piece on a concatenation. */
  lemma {:induction false} RemoveGenresConcat(a: seq<string>, b: seq<string>)
    ensures RemoveGenres(a + b) == RemoveGenres(a) + RemoveGenres(b)
  {
    if a == [] {
      assert a + b == b;
    } else {
      assert (a + b)[1..] == a[1..] + b;
      RemoveGenresConcat(a[1..], b);
    }
  }

  /** A list without genres is left as it is; in particular the filter is idempotent. */
  lemma {:induction false} RemoveGenresKeepsOthers(categories: seq<string>)
    requires forall k :: 0 <= k < |categories| ==> !StartsWith(categories[k], GenrePrefix)
    ensures RemoveGenres(categories) == categories
  {
    if categories != [] {
      RemoveGenresKeepsOthers(categories[1..]);
    }
  }

  lemma RemoveGenresIdempotent(categories: seq<string>)
    ensures RemoveGenres(RemoveGenres(categories)) == RemoveGenres(categories)
  {
    var r := RemoveGenres(categories);
    assert forall k :: 0 <= k < |r| ==> r[k] in r;
    RemoveGenresKeepsOthers(r);
  }

  /** The link fix of `filterDescription`: scheme-relative links to the site get `http:`. */
  function FixLinks(md: string): string
  {
    ReplaceAll(md, BareLink, FullLink)
  }

  /** Text without a scheme-relative link is not changed. */
  lemma FixLinksWithout(md: string)
    requires !Contains(md, BareLink)
    ensures FixLinks(md) == md
  {
    ReplaceAllWithout(md, BareLink, FullLink);
  }

  /** The first scheme-relative link gets its scheme; the text before it is kept and the rest is fixed in turn. */
  lemma FixLinksAtFirst(a: string, b: string)
    requires forall i: nat :: i < |a| ==> !OccursAt(a + BareLink + b, BareLink, i)
    ensures FixLinks(a + BareLink + b) == a + FullLink + FixLinks(b)
  {
    ReplaceAllAtFirst(a, BareLink, FullLink, b);
  }

  /** `filterDescription`: Markdown of the description, links fixed. */
  function FilterDescription(html: string, toMarkdown: string -> string): string
  {
    FixLinks(toMarkdown(html))
  }

  /** The display title made of the title's groups. */
  function DisplayTitle(info: TitleInfo): string
  {
    info.console + " " + info.game + " by " + info.author + " in " + info.duration
  }

  /**
   * `sanitizeData`. A title that does not match the pattern makes
   * `getTitleInfo` return null, and reading `console` of it throws: `None`.
   */
  function SanitizeData(item: RssItem, titleInfo: string -> Option<TitleInfo>, toMarkdown: string -> string): (r: Option<Tas>)
    ensures r.Some? <==> titleInfo(item.title).Some?
    ensures r.Some? ==>
      && r.value.id == item.guid
      && r.value.title == DisplayTitle(titleInfo(item.title).value)
      && r.value.data.titleOriginal == item.title
      && r.value.data.image == item.imageUrl
      && r.value.data.comments == item.comments
      && r.value.data.date == item.date
      && r.value.data.link == item.link
      && r.value.data.categories == item.categories
      && r.value.data.categoriesWithoutGenre == RemoveGenres(item.categories)
      && r.value.data.description == FilterDescription(item.description, toMarkdown)
      && r.value.data.youtubeLink == item.mediaPlayerUrl
  {
    match titleInfo(item.title)
    case None => None
    case Some(info) =>
      Some(Cache.Item(item.guid, DisplayTitle(info), Details(
        item.title, item.imageUrl, item.comments, item.date,
        FilterDescription(item.description, toMarkdown),
        item.categories, RemoveGenres(item.categories), item.mediaPlayerUrl, item.link)))
  }

  /** `items.map(sanitizeData)`: fails as soon as one item fails. */
  function SanitizeAll(feed: seq<RssItem>, titleInfo: string -> Option<TitleInfo>, toMarkdown: string -> string): (r: Option<seq<Tas>>)
    ensures r.None? <==> exists k :: 0 <= k < |feed| && titleInfo(feed[k].title).None?
    ensures r.Some? ==> |r.value| == |feed|
    ensures r.Some? ==> forall k :: 0 <= k < |feed| ==> Some(r.value[k]) == SanitizeData(feed[k], titleInfo, toMarkdown)
  {
    if feed == [] then Some([])
    else
      var head := SanitizeData(feed[0], titleInfo, toMarkdown);
      var tail := SanitizeAll(feed[1..], titleInfo, toMarkdown);
      assert forall k :: 1 <= k < |feed| ==> feed[1..][k - 1] == feed[k];
      if head.Some? && tail.Some? then Some([head.value] + tail.value) else None
  }

  /** Reporting a feed twice in a row: after the first commit, the same feed yields nothing new. */
  lemma SameFeedTwice(cached: map<Cache.CacheKey, Cache.Row>, ns: string, items: seq<Tas>)
    ensures var after := Cache.Inserted(cached, ns, Cache.Unseen(cached, ns, items));
      Cache.Unseen(after, ns, items) == []
  {
    Cache.CacheUnseenIsCacheAll(cached, ns, items);
    Cache.CachedBatchIsSeen(cached, ns, items);
  }

  /**
   * `findNewTASes`: the items of the feed not yet reported under the feed's
   * namespace, in feed order, which are then committed to the cache. An
   * empty feed returns at once; an item with an unmatched title makes the
   * whole call fail before the cache is read.
   */
  method FindNewTASes(store: Cache.Store, taskId: string, feedType: string, feed: seq<RssItem>,
                      titleInfo: string -> Option<TitleInfo>, toMarkdown: string -> string)
    returns (r: Result<seq<Tas>, string>)
    modifies store
    ensures store.path == old(store.path) && store.tables == old(store.tables) && store.settings == old(store.settings)
    ensures SanitizeAll(feed, titleInfo, toMarkdown).None? ==> r.Failure? && store.cached == old(store.cached)
    ensures feed == [] ==> r == Success([]) && store.cached == old(store.cached)
    ensures SanitizeAll(feed, titleInfo, toMarkdown).Some? ==>
      var ns := SearchCacheId(taskId, feedType);
      var items := SanitizeAll(feed, titleInfo, toMarkdown).value;
      && r == Success(Cache.Unseen(old(store.cached), ns, items))
      && store.cached == Cache.Inserted(old(store.cached), ns, r.value)
      && Cache.Unseen(store.cached, ns, items) == []
  {
    var searchCacheID := SearchCacheId(taskId, feedType);
    var sanitized := SanitizeAll(feed, titleInfo, toMarkdown);
    if sanitized.None? {
      return Failure("TypeError: title does not match");
    }
    var items := sanitized.value;
    if |items| == 0 {
      return Success([]);
    }
    var newItems := store.RemoveCached(searchCacheID, items);
    store.CacheItems(searchCacheID, newItems);
    SameFeedTwice(old(store.cached), searchCacheID, items);
    return Success(newItems);
  }
}
