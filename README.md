# Callisto core, modelled in Dafny

Callisto is a Discord bot. It runs scraping tasks on a timer and posts anything new to Discord channels. This project
models the parts of its code that decide what the bot does:

- **Discord command parsing** (`callisto-util-misc/discord.js`): mentions are stripped, a message is cut into words,
  the command format is looked up, required and optional arguments are collected, and usage and help texts are
  rendered. The module also reads channel ids out of Discord API error paths and searches the task settings for a
  channel reference.
- **The request queue** (`callisto-util-request`): every outgoing request gets a slot and a place in the queue order.
  A ticker lets one request run at a time, and a run retries a failing fetch up to a fixed number of times.
- **The cache** (`callisto-util-cache`): a table of the item ids already posted, keyed by (id, task). It filters out the
  items already seen, records new ones, and stores a settings text per task.
- **The TASVideos search task** (`callisto-task-tasvideos/search.js`): feed items are sanitised into TAS records, and
  only the ones not cached before are reported.
- **Helpers**: defaults merging and nil removal (`callisto-core/util/misc.js`), configuration key lookup and generation
  of a new configuration file (`callisto-core/lib/config`), Hiveworks comic URLs and dates (`tasks/hiveworks/util.js`),
  and the log severity table (`callisto-util-logging/severity.js`).

One module per source file (`Discord`, `RequestQueue`, `Cache`, `TasVideos`, `Misc`, `Config`, `Hiveworks`,
`Severity`). These share three small modules:

- `Wrappers`: `Option` and `Result`;
- `Strings`: JavaScript's `trim`, `split`, `join` and `replace` on strings, with their laws;
- `Json`: a JSON-like value tree, used for configuration objects.

The request queue and the cache database are objects whose state the source updates in place. They are the classes
`RequestQueue.Queue` and `Cache.Store`. Everything else is pure and is modelled as functions and lemmas. The loops of the
source are methods with loop invariants: the retry loop, the free-slot search, the queue-order clean-up, the cache
insert loop and the two recursive searches of `findChannel`.

Conventions:

- JavaScript `undefined` and `false` results become `None`, or a dedicated constructor.
- A JavaScript `throw` (a `TypeError` from reading a missing format field) becomes `None`, or a `Threw` constructor.
- I/O is a parameter: the HTTP fetch is a function from attempt number to result, and the HTML-to-Markdown converter,
  the title parser and the configuration template are functions passed in.

## Model

| member | source | states |
|---|---|---|
| Discord.MentionLength | packages/callisto-util-misc/discord.js:12 | a recognised mention prefix is exactly `<@`, at least one digit, `>` |
| Discord.MentionLengthOf | packages/callisto-util-misc/discord.js:12 | a mention is recognised with exactly its own length, whatever follows it |
| Discord.StripMentions | packages/callisto-util-misc/discord.js:74 | removing mentions never lengthens the message |
| Discord.StripMentionsDropsMention | packages/callisto-util-misc/discord.js:74 | a mention at the front is removed entirely |
| Discord.StripMentionsKeepsPlain | packages/callisto-util-misc/discord.js:74 | text without `<` passes through unchanged |
| Discord.WordLength | packages/callisto-util-misc/discord.js:14 | a word run is maximal: non-white characters up to white space or the end |
| Discord.Words | packages/callisto-util-misc/discord.js:14 | every match of `\S+` is a non-empty run without white space |
| Discord.WordLengthOf | packages/callisto-util-misc/discord.js:14 | a word followed by white space or the end has exactly its own length |
| Discord.WordsSkipLeading | packages/callisto-util-misc/discord.js:14 | leading white space yields no words |
| Discord.WordsSkipTrailing | packages/callisto-util-misc/discord.js:14 | trailing white space yields no words |
| Discord.WordsOfTrim | packages/callisto-util-misc/discord.js:74-77 | trimming before matching words changes nothing |
| Discord.WordsOfJoin | packages/callisto-util-misc/discord.js:14 | words joined by single spaces split back into the same words |
| Discord.CommandWordsIgnoreTrim | packages/callisto-util-misc/discord.js:74-77 | the words of a message are the words of the message without mentions; the trim is irrelevant |
| Discord.CommandWordsOfJoin | packages/callisto-util-misc/discord.js:74-77 | a message typed as space-separated words without `<` yields exactly those words |
| Discord.JoinFree | packages/callisto-util-misc/discord.js:74 | a character in neither the parts nor the separator is absent from the join |
| Discord.CommandWordsSkipMention | packages/callisto-util-misc/discord.js:74-77 | a leading mention and its space do not affect the words |
| Discord.CommandWords | packages/callisto-util-misc/discord.js:74-77 | mentions stripped, trimmed, split at white space; its meaning is stated by `CommandWordsIgnoreTrim`, `CommandWordsOfJoin` and `CommandWordsSkipMention` |
| Discord.MatchingFormat | packages/callisto-util-misc/discord.js:99 | no format exactly when no name matches; otherwise the first format whose name matches |
| Discord.ReduceArgumentsKeys | packages/callisto-util-misc/discord.js:104-105 | a name is a key exactly when one of its positions n has n + offset <= word count (the `>=`) |
| Discord.ReduceArgumentsValue | packages/callisto-util-misc/discord.js:104-105 | the value under a name is the word at its last position, `undefined` one past the end |
| Discord.ReduceArgumentsBound | packages/callisto-util-misc/discord.js:104-105 | for a name that occurs once: it is a key iff its position is within bound; its value is the word there |
| Discord.ReduceArguments | packages/callisto-util-misc/discord.js:104-105 | the `reduce` over the names of a format; its keys and values are stated by `ReduceArgumentsKeys`, `ReduceArgumentsValue` and `ReduceArgumentsBound` |
| Discord.ParseWords | packages/callisto-util-misc/discord.js:77-94 | `false` iff no words or a different first word; `[false]` iff no format matches; `[false, name]` only with too few words; success only with enough words, the first matching format and its name; a throw exactly when the matching format lacks the list the parser reads next |
| Discord.ParseCommand | packages/callisto-util-misc/discord.js:72-94 | `parseCommand` on a whole message: `ParseWords` of its command words; stated by `ParsedRequiredDefined`, `ParsedRequiredKeys` and `ParseTypedCommand` |
| Discord.ParsedArgs | packages/callisto-util-misc/discord.js:90-91 | on success the required arguments are read from offset 2 and the optional ones after the required |
| Discord.ParsedRequiredDefined | packages/callisto-util-misc/discord.js:87-90 | on success every required argument is present and is the word at its position |
| Discord.ParsedRequiredKeys | packages/callisto-util-misc/discord.js:90 | on success the required-argument keys are exactly the required names |
| Discord.ParsedOptionalKey | packages/callisto-util-misc/discord.js:91 | a once-named optional argument is a key iff its position is at most the word count |
| Discord.ParsedOptionalValue | packages/callisto-util-misc/discord.js:91 | such an argument, when within bound, holds the word at its position |
| Discord.ParseTypedWords | packages/callisto-util-misc/discord.js:78-93 | identifier, command and enough arguments as words parse successfully, with each required argument bound to its word |
| Discord.ParseTypedCommand | packages/callisto-util-misc/discord.js:72-94 | the same for a message typed as those words separated by spaces |
| Discord.ArgTokens | packages/callisto-util-misc/discord.js:47-48 | one `__:name__` token per name, in order, after `[` for optional names |
| Discord.FormatUsage | packages/callisto-util-misc/discord.js:46-50 | usage is rendered iff the format has both name lists (otherwise the source throws) |
| Discord.TrimUsageArgs | packages/callisto-util-misc/discord.js:49 | the trimmed argument part is all tokens joined by spaces followed by the closing brackets |
| Discord.FormatUsageShape | packages/callisto-util-misc/discord.js:46-50 | the usage line is `@bot identifier name` followed by the argument tokens and one `]` per optional name |
| Discord.HelpEntry | packages/callisto-util-misc/discord.js:28 | a help entry exists iff the format's usage can be rendered |
| Discord.AllPresentEach | packages/callisto-util-misc/discord.js:27-29 | collecting entries succeeds iff each succeeds, keeping order and count |
| Discord.HelpEntries | packages/callisto-util-misc/discord.js:27-29 | the mapped help entries, or the throw of the first format that cannot render; stated by `HelpEntriesEach` |
| Discord.HelpEntriesEach | packages/callisto-util-misc/discord.js:27-29 | one help entry per format, in order, when every format renders |
| Discord.ShowCommandHelp | packages/callisto-util-misc/discord.js:26-30 | help text exists iff every format has both name lists; it is the fixed heading followed by the help entry of each format, in order, joined by `\n` |
| Discord.DigitsFrom | packages/callisto-util-misc/discord.js:112 | the maximal digit run at a position |
| Discord.ChannelAt | packages/callisto-util-misc/discord.js:112 | a match at a position captures only digits |
| Discord.FirstChannel | packages/callisto-util-misc/discord.js:112 | the leftmost position where the pattern matches, or none anywhere |
| Discord.GetChannelFromPath | packages/callisto-util-misc/discord.js:111-116 | `undefined` iff the pattern matches nowhere; otherwise the digit capture of the leftmost match, wherever in the path it starts |
| Discord.ChannelAtParts | packages/callisto-util-misc/discord.js:112 | a match at the start with given version and channel lengths captures the channel digits |
| Discord.ChannelAtStart | packages/callisto-util-misc/discord.js:112 | `/api/v<digits>/channels/<digits>/…` (any case) matches at the start with the channel as capture |
| Discord.ChannelOfApiPath | packages/callisto-util-misc/discord.js:111-116 | the channel id of an API path is its channel digits |
| Discord.ChannelOfDocumentedPath | packages/callisto-util-misc/discord.js:107-116 | the documented example path yields `454275744751812608` |
| Discord.FindChannel | packages/callisto-util-misc/discord.js:136-153 | (corrected) finds a path iff the channel occurs somewhere in the object, and the path leads to it |
| Discord.FindChannelAsWritten | packages/callisto-util-misc/discord.js:136-153 | (as written) finds a path iff the channel occurs along the chain of last members and elements |
| Discord.FindChannelAsWrittenMissesFirstMember | packages/callisto-util-misc/discord.js:139-142 | a channel held by the first of two keys is missed as written |
| Discord.FindChannelPath | packages/callisto-util-misc/discord.js:120-131 | a path iff some task's settings mention the channel, and it leads there from the task name |
| RequestQueue.RetryFrom | packages/callisto-util-request/index.js:55-75 | from a given attempt: resolves with the first success within budget, else rejects with the last error |
| RequestQueue.Retry | packages/callisto-util-request/index.js:55-75 | resolves iff some attempt below the limit succeeds (with the first success, after that many calls); otherwise rejects with the last error after every attempt |
| RequestQueue.RetryAsWritten | packages/callisto-util-request/index.js:56-61 | (as written) crashes iff at least two tries are allowed and the first fails; otherwise as `Retry` |
| RequestQueue.RetryAsWrittenCrashesOnFirstRetry | packages/callisto-util-request/index.js:56-61 | two failures then a success crashes as written, while the intended loop resolves |
| RequestQueue.FirstPending | packages/callisto-util-request/index.js:102-104 | the first non-deleted entry of the queue order, or none |
| RequestQueue.TickAsWritten | packages/callisto-util-request/index.js:102-109 | (as written) garbage-collects exactly when the corrected tick does |
| RequestQueue.TickAsWrittenSkipsWaitingRequest | packages/callisto-util-request/index.js:107 | after slot reuse the tick as written grants no request although one is waiting |
| RequestQueue.Occupy | packages/callisto-util-request/index.js:124-130 | the chosen slot holds the new id; every other slot is unchanged |
| RequestQueue.FirstPendingAppend | packages/callisto-util-request/index.js:132 | queueing behind a pending request leaves the head unchanged |
| RequestQueue.FirstPendingVacate | packages/callisto-util-request/index.js:86-89 | deleting another slot's order entry leaves the head unchanged |
| RequestQueue.SpotKeepsConsistent | packages/callisto-util-request/index.js:121-134 | handing out a spot keeps the queue consistent and keeps earlier tickets valid |
| RequestQueue.SpotNamesSlots | packages/callisto-util-request/index.js:128-132 | every order entry still names an occupied slot |
| RequestQueue.SpotSlotsNamed | packages/callisto-util-request/index.js:128-132 | every occupied slot is still named in the order |
| RequestQueue.SpotDistinct | packages/callisto-util-request/index.js:128 | a fresh id keeps the slot ids distinct |
| RequestQueue.SpotTurnGranted | packages/callisto-util-request/index.js:128-132 | a granted turn stays with the head of the queue |
| RequestQueue.CleanKeepsConsistent | packages/callisto-util-request/index.js:83-91 | cleaning a finished request keeps the queue consistent and other tickets valid |
| RequestQueue.GrantKeepsConsistent | packages/callisto-util-request/index.js:102-109 | with a pending request the corrected tick grants a live id, and the queue stays consistent |
| RequestQueue.NothingPendingNothingQueued | packages/callisto-util-request/index.js:111-115 | when no order entry is pending, no slot and no ready flag remains |
| RequestQueue.OccupyLive | packages/callisto-util-request/index.js:128 | occupying a free slot adds exactly the new id to the live ids |
| RequestQueue.VacateLive | packages/callisto-util-request/index.js:84-85 | freeing a slot removes exactly its id from the live ids |
| RequestQueue.RunAttempts | packages/callisto-util-request/index.js:55-75 | the retry loop computes exactly `Retry` |
| RequestQueue.FreeSlot | packages/callisto-util-request/index.js:124-125 | the first free slot, or one past the end |
| RequestQueue.VacateOrder | packages/callisto-util-request/index.js:86-89 | the loop deletes every order entry naming the slot |
| RequestQueue.Queue.constructor | packages/callisto-util-request/index.js:33-36 | an empty, consistent, idle queue |
| RequestQueue.Queue.GetQueueSpot | packages/callisto-util-request/index.js:121-136 | the first free slot (or a new one) gets the next counter value as a fresh id, not yet ready, appended to the order; the counter advances by one |
| RequestQueue.Queue.CleanFromQueue | packages/callisto-util-request/index.js:83-91 | the id's ready flag and slot are cleared, its order entries deleted, and the queue is idle |
| RequestQueue.Queue.Tick | packages/callisto-util-request/index.js:98-116 | nothing while a request runs; otherwise the head request becomes ready, or with nothing pending the structures are emptied |
| RequestQueue.Queue.MakeQueuedRequest | packages/callisto-util-request/index.js:42-47 | queueing a request takes a spot as `GetQueueSpot` does and keeps the retry count |
| RequestQueue.Queue.RequestUrl | packages/callisto-util-request/index.js:143-146 | a URL request is queued with the fixed try count of 5 |
| RequestQueue.Queue.Poll | packages/callisto-util-request/index.js:48-76 | not ready: no change; ready: the retry outcome of `Retry`, then the request is cleaned and the queue goes idle |
| RequestQueue.QueueTwo | packages/callisto-util-request/index.js:121-134 | two requests take slots 0 and 1 in order |
| RequestQueue.RunNext | packages/callisto-util-request/index.js:48-116 | granting, running and cleaning the head request consumes just that request |
| RequestQueue.RunFirst | packages/callisto-util-request/index.js:48-116 | the first request runs and frees slot 0 |
| RequestQueue.QueueThird | packages/callisto-util-request/index.js:121-134 | a third request reuses freed slot 0 and is appended as order entry 2 |
| RequestQueue.RunSecond | packages/callisto-util-request/index.js:48-116 | the second request runs; the third waits in slot 0 |
| RequestQueue.SlotReuseScenario | packages/callisto-util-request/index.js:98-134 | that reachable state is granted nothing as written and the waiting request when corrected |
| Cache.DbPath | packages/callisto-util-cache/index.js:13-15 | the database file is `db.sqlite` under the base path |
| Cache.InitTables | packages/callisto-util-cache/index.js:20-27 | the items table exists afterwards; it is created only when missing |
| Cache.Unseen | packages/callisto-util-cache/index.js:75-95 | the filter of `removeCached`; it never returns more items than it is given. What it keeps is stated by `UnseenMembers` (membership) and `UnseenConcat` (order) |
| Cache.Insert | packages/callisto-util-cache/index.js:104 | one `stmt.run` of an (id, task) row; a duplicate key fails on the primary key and leaves the existing row; stated by `InsertedSnoc` and `InsertedRows` |
| Cache.Inserted | packages/callisto-util-cache/index.js:100-107 | the rows after inserting a batch in order; stated by `InsertedRows`, `InsertedSnoc` and `CacheUnseenIsCacheAll` |
| Cache.UnseenMembers | packages/callisto-util-cache/index.js:75-95 | an item is kept iff it is in the input and its (id, task) key is not cached |
| Cache.UnseenConcat | packages/callisto-util-cache/index.js:91-92 | filtering distributes over concatenation, so order is kept |
| Cache.UnseenIdempotent | packages/callisto-util-cache/index.js:91-92 | filtering twice equals filtering once |
| Cache.InsertedRows | packages/callisto-util-cache/index.js:100-107 | inserting adds exactly the batch's (id, task) keys and never changes an existing row (primary key at line 47) |
| Cache.InsertedSnoc | packages/callisto-util-cache/index.js:104 | inserting a batch is inserting its items one after another |
| Cache.UnseenAllCached | packages/callisto-util-cache/index.js:75-95 | nothing is new when every key is cached |
| Cache.CachedBatchIsSeen | packages/callisto-util-cache/index.js:75-107 | a batch just cached is entirely seen |
| Cache.TasksAreSeparate | packages/callisto-util-cache/index.js:47 | caching for one task does not change what another task sees |
| Cache.UnseenOnlyReadsTask | packages/callisto-util-cache/index.js:79-84 | the filter reads only the task's own keys |
| Cache.CacheUnseenIsCacheAll | packages/callisto-util-cache/index.js:75-107 | caching only the new items leaves the same table as caching the whole batch |
| Cache.Store.constructor | packages/callisto-util-cache/index.js:8 | a store with the given tables, rows and settings |
| Cache.Store.DbInit | packages/callisto-util-cache/index.js:20-27 | sets the path and creates the table as `InitTables` says; rows and settings unchanged |
| Cache.Store.RemoveCached | packages/callisto-util-cache/index.js:75-95 | returns `Unseen` of the current table: what is in the input and not cached |
| Cache.Store.CacheItems | packages/callisto-util-cache/index.js:100-107 | the table becomes `Inserted`; nothing else changes |
| Cache.Store.GetSettings | packages/callisto-util-cache/index.js:113-125 | the stored text, or `{}` stored and returned when there is none |
| Cache.Store.SaveSettings | packages/callisto-util-cache/index.js:130-132 | the identifier's settings become the given text; nothing else changes |
| TasVideos.SearchCacheId | packages/callisto-task-tasvideos/search.js:20 | the cache namespace is task id, `$`, feed type |
| TasVideos.SearchCacheIdInjective | packages/callisto-task-tasvideos/search.js:20 | different feed types of one task get different namespaces |
| TasVideos.SearchUrl | packages/callisto-task-tasvideos/search.js:14-16 | `http://tasvideos.org/<type>.rss`, a format string with no lemma of its own |
| TasVideos.RemoveGenres | packages/callisto-task-tasvideos/search.js:43-45 | exactly the categories not starting with `Genre:` |
| TasVideos.RemoveGenresConcat | packages/callisto-task-tasvideos/search.js:43-45 | the filter distributes over concatenation, so order is kept |
| TasVideos.RemoveGenresKeepsOthers | packages/callisto-task-tasvideos/search.js:43-45 | a list without genres is unchanged |
| TasVideos.RemoveGenresIdempotent | packages/callisto-task-tasvideos/search.js:43-45 | removing genres twice equals once |
| TasVideos.FixLinksWithout | packages/callisto-task-tasvideos/search.js:50 | text without a protocol-relative link is unchanged |
| TasVideos.FixLinksAtFirst | packages/callisto-task-tasvideos/search.js:50 | the first `(//tasvideos.org` becomes `(http://tasvideos.org` and the rest is rewritten in turn |
| TasVideos.FixLinks | packages/callisto-task-tasvideos/search.js:50 | the `split`/`join` rewriting of bare links; stated by `FixLinksWithout` and `FixLinksAtFirst` |
| TasVideos.FilterDescription | packages/callisto-task-tasvideos/search.js:47-51 | the converted Markdown with its links fixed; used in `SanitizeData`'s contract |
| TasVideos.DisplayTitle | packages/callisto-task-tasvideos/search.js:59 | console, game, author and duration in the source's sentence; used in `SanitizeData`'s contract |
| TasVideos.SanitizeData | packages/callisto-task-tasvideos/search.js:53-69 | a record iff the title parses (otherwise the source throws a `TypeError`); `id`, `title`, `titleOriginal`, `image`, `comments`, `date`, `description`, `categories`, `categoriesWithoutGenre`, `youtubeLink` and `link` are each the item field the source assigns |
| TasVideos.SanitizeAll | packages/callisto-task-tasvideos/search.js:23 | fails iff some item's title does not parse; otherwise one record per item, in order |
| TasVideos.SameFeedTwice | packages/callisto-task-tasvideos/search.js:25-26 | after a run has cached a feed, the same feed reports nothing new |
| TasVideos.FindNewTASes | packages/callisto-task-tasvideos/search.js:18-28 | returns the uncached records and caches them; an empty feed or a failing title leaves the cache alone |
| Misc.WrapArray | packages/callisto-core/util/misc.js:29-31 | an array unchanged, anything else inside a one-element array |
| Misc.WrapArrayIdempotent | packages/callisto-core/util/misc.js:29-31 | wrapping twice equals wrapping once |
| Misc.RemoveNil | packages/callisto-core/util/misc.js:21-23 | exactly the entries that are neither `null` nor `undefined`, with their values |
| Misc.RemoveNilIdempotent | packages/callisto-core/util/misc.js:21-23 | removing nil entries twice equals once |
| Misc.RemoveNilOfClean | packages/callisto-core/util/misc.js:21-23 | an object without nil entries is unchanged |
| Misc.RemoveDefaults | packages/callisto-core/util/misc.js:37-39 | exactly the entries not strictly equal to the default, with their values |
| Misc.RemoveNoDefaults | packages/callisto-core/util/misc.js:37-39 | against no defaults only the `undefined` entries go |
| Misc.AddNoDefaults | packages/callisto-core/util/misc.js:9-15 | without defaults the item is returned as it is |
| Misc.AddDefaults | packages/callisto-core/util/misc.js:9-15 | the item alone without defaults, else the merge over the defaults; stated by `AddNoDefaults`, `AddDefaultsEntries`, `AddDefaultsIdempotent` and `RemoveThenAddDefaults` |
| Misc.Merge | packages/callisto-core/util/misc.js:12 | lodash `merge` of flat objects, key by key; stated by `AddDefaultsEntries` |
| Misc.MergeValue | packages/callisto-core/util/misc.js:12 | `merge` of one source value; stated by `MergeValueSelf` and `MergeValueTwice` |
| Misc.MergeElems | packages/callisto-core/util/misc.js:12 | `merge` of a source array, index by index; stated by `MergeElemsShape`, `MergeElemsSelf` and `MergeElemsTwice` |
| Misc.AddDefaultsEntries | packages/callisto-core/util/misc.js:9-15 | every key of both; flat item values win; `undefined` and missing item keys keep the default |
| Misc.MergeElemsShape | packages/callisto-core/util/misc.js:12 | merging arrays keeps the longer length; flat source elements win; the destination's tail is kept |
| Misc.MergeValueSelf | packages/callisto-core/util/misc.js:12 | merging a value into itself gives it back |
| Misc.MergeElemsSelf | packages/callisto-core/util/misc.js:12 | merging an array into itself gives it back |
| Misc.MergeValueTwice | packages/callisto-core/util/misc.js:12 | merging the same source twice equals once |
| Misc.MergeElemsTwice | packages/callisto-core/util/misc.js:12 | the same for arrays |
| Misc.AddDefaultsIdempotent | packages/callisto-core/util/misc.js:9-15 | adding the same defaults twice equals once |
| Misc.RemoveThenAddDefaults | packages/callisto-core/util/misc.js:9-15 | adding back removed defaults restores a flat object that has every default key |
| Config.Steps | packages/callisto-core/lib/config/index.js:19 | one key step per dotted name, in order |
| Config.GetOrNull | packages/callisto-core/lib/config/index.js:19 | the value at the path, or `null` when the path is missing |
| Config.GetConfigKey | packages/callisto-core/lib/config/index.js:17-20 | `getConfigKey`; stated by `GetConfigKeyReads`, `SystemKeyValue`, `TaskKeyValue` and `MissingSystemConfigIsNull` |
| Config.StepsConcat | packages/callisto-core/lib/config/index.js:19 | the steps of joined name lists are the joined steps |
| Config.SplitFirstName | packages/callisto-core/lib/config/index.js:18-19 | a dot-free first name splits off the dotted path |
| Config.NamesHaveNoDot | packages/callisto-core/lib/config/index.js:18 | the two namespace names contain no dot |
| Config.SystemPathNames | packages/callisto-core/lib/config/index.js:18-19 | a missing namespace reads `systemConfig` followed by the key's names |
| Config.TaskPathNames | packages/callisto-core/lib/config/index.js:18-19 | a task namespace reads `taskConfig`, the task, then the key's names |
| Config.GetConfigKeyReads | packages/callisto-core/lib/config/index.js:17-20 | a key is read along namespace steps followed by its dotted names, `null` if absent |
| Config.PathSteps | packages/callisto-core/lib/config/index.js:18-19 | the path's steps are namespace steps then key steps |
| Config.SystemKeyValue | packages/callisto-core/lib/config/index.js:17-20 | without a namespace a plain key yields its system configuration value |
| Config.TaskKeyValue | packages/callisto-core/lib/config/index.js:17-20 | with a task namespace a plain key yields the task's value |
| Config.MissingSystemConfigIsNull | packages/callisto-core/lib/config/index.js:19 | without system configuration every system key is `null` |
| Config.Padded | packages/callisto-core/lib/config/index.js:132-134 | a padded block starts with the indentation |
| Config.IndentCons | packages/callisto-core/lib/config/index.js:134 | indenting replaces each newline by newline plus indentation |
| Config.Indent | packages/callisto-core/lib/config/index.js:134 | the newline replacement; stated by `IndentCons`, `IndentEmpty`, `UnindentIndent` and `IndentPadsNewlines` |
| Config.IndentEmpty | packages/callisto-core/lib/config/index.js:134 | indenting nothing gives nothing |
| Config.UnindentIndent | packages/callisto-core/lib/config/index.js:134 | indentation can be undone, so no content is lost |
| Config.PrefixKeepsPadded | packages/callisto-core/lib/config/index.js:134 | a newline-free prefix keeps every newline indented |
| Config.PaddedNewlineKeepsPadded | packages/callisto-core/lib/config/index.js:134 | an indented newline in front keeps every newline indented |
| Config.IndentPadsNewlines | packages/callisto-core/lib/config/index.js:134 | after indenting, every newline is followed by the indentation |
| Config.PaddedShape | packages/callisto-core/lib/config/index.js:132-134 | a padded block starts indented, indents every line, and yields its content back |
| Config.GenerateNewConfig | packages/callisto-core/lib/config/index.js:131-137 | the file ends in one newline, has no white space around its text, and is the trimmed template output |
| Config.TemplateInputOrder | packages/callisto-core/lib/config/index.js:133 | task outputs are joined by `,\n` in order |
| Config.TemplateInput | packages/callisto-core/lib/config/index.js:132-134 | the padded, joined task outputs; stated by `TemplateInputOrder` and `PaddedShape` |
| Config.GenerateIgnoresSurroundingSpace | packages/callisto-core/lib/config/index.js:135-136 | white space around the template's text is dropped and one newline added |
| Hiveworks.UrlComic | tasks/hiveworks/util.js:12-15 | `comic/` is put before a slug that lacks it |
| Hiveworks.UrlComicUnderComics | tasks/hiveworks/util.js:12-15 | every comic URL lies under `base/comic/` |
| Hiveworks.UrlComicDefault | tasks/hiveworks/util.js:12 | the default slug gives `base/comic/` |
| Hiveworks.UrlComicPrefixOptional | tasks/hiveworks/util.js:12-15 | a slug with or without `comic/` gives the same URL |
| Hiveworks.UrlArchive | tasks/hiveworks/util.js:16 | the archive URL is the comic URL of `archive/` |
| Hiveworks.FirstFourDigits | tasks/hiveworks/util.js:8 | the leftmost position of four digits in a row, or none |
| Hiveworks.GetYear | tasks/hiveworks/util.js:21-24 | `null` iff there are no four digits in a row; otherwise the four digits of the leftmost such run, as the unanchored regex match returns |
| Hiveworks.YearAfterWords | tasks/hiveworks/util.js:18-24 | a date like `January, 2018` yields `2018` |
| Hiveworks.FirstFourDigitsFrom | tasks/hiveworks/util.js:8 | the first four-digit position is the leftmost one |
| Hiveworks.SeparateDateTitleParts | tasks/hiveworks/util.js:28-31 | the date is the text before the first ` - `, the title is the rest joined back, and the date never contains ` - ` |
| Hiveworks.SeparateDateTitle | tasks/hiveworks/util.js:28-31 | the date and title halves; stated by `SeparateDateTitleParts` |
| Severity.LevelsListedOnce | packages/callisto-util-logging/severity.js:7 | six distinct log levels |
| Severity.SeverityCoversLevels | packages/callisto-util-logging/severity.js:7-16 | the severity table has exactly the log levels as keys |
| Severity.SeverityDecreasing | packages/callisto-util-logging/severity.js:7-16 | severity strictly falls along the level list |
| Severity.SeveritiesDistinct | packages/callisto-util-logging/severity.js:9-16 | no two levels share a severity |
| Strings.TrimStart | packages/callisto-util-misc/discord.js:74 | a suffix of the input, after white space only, starting with a non-white character |
| Strings.TrimEnd | packages/callisto-util-misc/discord.js:74 | a prefix of the input, before white space only, ending with a non-white character |
| Strings.TrimStrips | packages/callisto-core/lib/config/index.js:136 | `trim` removes exactly the leading and trailing white space |
| Strings.TrimSurrounded | packages/callisto-core/lib/config/index.js:136 | white space around a text with non-white ends is removed |
| Strings.Trim | packages/callisto-core/lib/config/index.js:136 | `String.prototype.trim`; stated by `TrimStrips` and `TrimSurrounded` |
| Strings.Split | tasks/hiveworks/util.js:29 | `split` yields at least one piece, and the first piece begins the text |
| Strings.SplitJoin | tasks/hiveworks/util.js:29-30 | joining the pieces of a split with the separator restores the text |
| Strings.Join | tasks/hiveworks/util.js:30 | `Array.prototype.join`; stated by `SplitJoin`, `JoinSnoc`, `JoinConcat` and `JoinEnds` |
| Strings.SplitWithout | packages/callisto-task-tasvideos/search.js:50 | a text without the separator is one piece |
| Strings.SplitWith | packages/callisto-task-tasvideos/search.js:50 | a text with the separator gives at least two pieces |
| Strings.SplitSingleIffAbsent | tasks/hiveworks/util.js:29 | a single piece iff the separator does not occur |
| Strings.SplitPartsFree | tasks/hiveworks/util.js:29 | no piece contains the separator |
| Strings.SplitAtFirst | tasks/hiveworks/util.js:29 | the first piece runs up to the first separator |
| Strings.ReplaceAllWithout | packages/callisto-core/lib/config/index.js:134 | replacing an absent pattern changes nothing |
| Strings.ReplaceAllAtFirst | packages/callisto-core/lib/config/index.js:134 | the first occurrence is replaced and the rest is replaced in turn |
| Strings.ReplaceAll | packages/callisto-core/lib/config/index.js:134 | a global `replace` of a literal pattern; stated by `ReplaceAllWithout`, `ReplaceAllAtFirst` and `ReplaceCharCons` |
| Strings.Repeat | packages/callisto-util-misc/discord.js:48 | `n` copies of one character |
| Strings.JoinSnoc | packages/callisto-core/lib/config/index.js:133 | joining one more part appends the separator and the part |
| Strings.JoinConcat | packages/callisto-core/lib/config/index.js:133 | joining two lists joins their joins with the separator |
| Strings.JoinEnds | packages/callisto-util-misc/discord.js:49 | a join starts with its first part and ends with its last |
| Strings.SplitCharConcat | packages/callisto-core/lib/config/index.js:19 | splitting at a separator character splits each side separately |
| Strings.ReplaceCharCons | packages/callisto-core/lib/config/index.js:134 | replacing a single character works character by character |
| Json.FindKey | packages/callisto-core/lib/config/index.js:19 | the first member with the key, or none |
| Json.MemberByKey | packages/callisto-core/lib/config/index.js:19 | with distinct keys a member is found by its key |
| Json.AtStep | packages/callisto-core/lib/config/index.js:19 | a path is followed one property at a time |

## Left out

- Timers and interleaving: the `setInterval` timers of the request queue (lines 48 and 98) are not modelled. `RequestQueue.Queue.Poll`
  runs a whole request, from the ready check to its clean-up, as one atomic step, and `Tick` is a separate step.
- The warning logged between failed attempts is not modelled. That is `logger.warn` at
  `callisto-util-request/index.js:60`, the line whose `lastError` is the second finding below.
- `uuid()` is replaced by a counter (`nextId`), which is enough for ids to be unique.
- `requestAsBrowser`, its cookie jar, the HTTP layer and the response body are replaced by a fetch function from
  attempt number to `Fetched` or `Failed`.
- The SQL text, sqlite and the database file are left out. Cached rows are a map from their (id, task) key to a `Row`.
  Each row keeps the item's title and an `added` of SQL null (`None`), as `stmt.run(i.id, task, i.title, null)`
  inserts it (`index.js:104`). Settings are kept as text, without `JSON.parse` or `JSON.stringify`.
- `RequestQueue.Queue.RequestUrl` returns the queued request; the later extraction of `res.body` happens through
  `Poll`'s response.
- Command lookup, with `Discord.MatchingFormat`, does not model the pattern semantics of `new RegExp(command)`:
  - a command is a substring test against the format name;
  - a missing command matches every name, as `new RegExp(undefined)` does;
  - regular-expression metacharacters in a command are not interpreted;
  - the `'i'` passed to `match` is a stray second argument that the source ignores.
- `showCommandUsage` is not modelled. It calls `getMatchingFormat(command)` without its formats argument, so it always
  throws a `TypeError`.
- `registerBotName` and the module-level bot name are a `botName` parameter; an unset name renders as `undefined`.
- The RSS parser, the HTML-to-Markdown converter and `getTitleInfo` are parameters of the TASVideos model.
- Channel search: `findChannel` compares leaves with `===`, and only string leaves are modelled as possible matches.
- `TasVideos.FindNewTASes` commits the new items to the cache before it returns. The source does not await
  `cacheItems` (`search.js:26`): it returns while the inserts are still pending, and drops their failures.
- `TasVideos.SanitizeData`: feed items are assumed to carry an `image` object, a `categories` array and a
  `description`; `RssItem` has no way to leave them out.
  - For an item without `image`, the source throws a `TypeError` at `item.image.url` (`search.js:60`).
  - For an item without `categories`, `removeGenres` throws at `categories.filter` (`search.js:65`, then `:44`).
  - What the HTML converter does with a missing `description` is not part of this model.
- Numbers are integers (`Misc.Value.Num`, `Json.JNumber`). Fractions and `NaN` are not represented, so neither is
  `NaN !== NaN` in `removeDefaults` (`misc.js:38`), which keeps a `NaN` entry even when the default is also `NaN`.
- JSON and lodash: only the parts the core uses are modelled.
  - Configuration objects are a JSON-like tree (`Json`), and `get` follows dotted key paths only, without brackets or
    array indexes.
  - In `Misc`, objects are flat maps and `merge` recurses into arrays only, not into nested plain objects.
  - Object identity is not modelled: two arrays are never `===`.
- `Config.GenerateNewConfig` takes the outputs of the task template functions rather than calling them, and the
  configuration template is a function parameter. The template file `tpl.js` is not part of this model.
- Configuration file I/O is not modelled: `readConfigFile`, `readConfig`, `validateConfigFile`, the `_validate*`
  helpers and `writeNewConfig` (`callisto-core/lib/config/index.js:30-126`).
- `getMarkdownFromHTML` (`tasks/hiveworks/util.js:34-36`) is a call into an HTML converter and is not modelled.
- The logging transport is not modelled; only the severity table is.
- `Discord.ParsedOptionalKey`: the `>=` in `reduceCommandArguments` (line 105) is modelled as written. An optional
  argument one position past the last word is therefore a key with value `undefined`. This is stated, not corrected,
  because it only affects presence and not the value.

## Findings

| source | as written | input that shows it | evidently intended | confidence | as-written member | corrected member |
|---|---|---|---|---|---|---|
| packages/callisto-util-request/index.js:107 | the ticker reads `queuedRequests[a]`, indexing the slots by the position in the order list | three requests, the first two finished, the third reusing slot 0: order `[deleted, deleted, 0]`, slots `[third, free]`. The ticker reads slot 2, which does not exist, and marks `undefined` ready, so the third request never runs | `queuedRequests[queueOrder[a]]`, the request in the slot the order entry names | not executed | RequestQueue.TickAsWritten, RequestQueue.TickAsWrittenSkipsWaitingRequest, RequestQueue.SlotReuseScenario | RequestQueue.Queue.Tick, RequestQueue.GrantKeepsConsistent |
| packages/callisto-util-request/index.js:60 | the retry loop logs `lastError`, a name that is not declared (the variable is `latestError`) | a fetch that fails once with five tries allowed: a `ReferenceError` is thrown inside the `async` interval callback of line 48, after `clearInterval` at line 53. Only that callback's own promise rejects, unhandled: neither `resolve` nor `reject` is called, the request never settles, and `performingRequest` stays set | log `latestError` and go on to the next attempt | not executed | RequestQueue.RetryAsWritten, RequestQueue.RetryAsWrittenCrashesOnFirstRetry | RequestQueue.Retry, RequestQueue.RunAttempts, RequestQueue.Queue.Poll |
| packages/callisto-util-misc/discord.js:139-148 | the loops of `findChannel` overwrite `result` on every member and element | `{ a: '1', b: '2' }` searched for `'1'`: the result of key `a` is overwritten by that of `b`, so the channel is not found | keep the first path found | not executed | Discord.FindChannelAsWritten, Discord.FindChannelAsWrittenMissesFirstMember | Discord.FindChannel, Discord.FindChannelPath |
