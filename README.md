# Content saver: item stores and chat helpers in Dafny

This project models the core of a personal "save links and notes" tool:

- the two `Storage` classes that keep the saved items. The MCP servers and the
  command-line script use `src/storage.ts`; the web interface falls back to
  `web-ui/lib/storage.ts`. Both keep an ordered collection of `ContentItem`
  records. Both de-duplicate links by a normalised URL, answer filtered
  searches newest first, list recent items, and look up and delete by id;
- the chat page's helpers in `web-ui/lib/chat-helpers.ts`: a per-session
  conversation history capped at ten messages, a keyword relevance ranking,
  and a detailed listing;
- three pure helpers of the chat endpoint `web-ui/app/api/chat/route.ts`: the
  save-intent detector, the reply used when no language model is configured,
  and the listing placed in the model's context.

Files:

| file | module | models |
|---|---|---|
| `wrappers.dfy` | `Wrappers` | `Option`, for optional fields and `null` results |
| `text.dfy` | `Text` | `toLowerCase`, `trim`, `includes`, `split(/\s+/)`, `join`, number formatting |
| `seqs.dfy` | `Seqs`, `Sorting` | `new Set` de-duplication, `slice`, the stable descending sort |
| `items.dfy` | `ContentItems`, `Urls` | the record, filters, lookups by id, URL parts |
| `server_storage.dfy` | `ServerStorage` | `src/storage.ts` |
| `web_storage.dfy` | `WebStorage` | `web-ui/lib/storage.ts` |
| `chat_helpers.dfy` | `ChatHelpers` | `web-ui/lib/chat-helpers.ts` |
| `chat_route.dfy` | `ChatRoute` | the three helpers of `web-ui/app/api/chat/route.ts` |

Modelling choices:

- Items are values (`datatype Item`). Each store is a class. Its field
  `items: seq<Item>` is reassigned by the methods that change the collection in
  place (`saveItem`, `deleteItem`). The ghost field `persisted` is the
  collection last written to the snapshot file.
- Timestamps are integers (milliseconds). The caller supplies `now`, the
  recent-items `cutoff`, the store's fresh id, and, for the server store, the
  local end-of-day of `dateTo` as `endOfDay`.
- The URL constructor is the class constant `parse: string -> Option<UrlParts>`.
  `None` stands for the constructor throwing.
- `toLocaleDateString` is a parameter `localeDate: int -> string`.
- `toLowerCase` is modelled on ASCII letters. `trim` and `\s` use the full
  JavaScript white-space and line-terminator set. `Array.prototype.sort` is
  stable and is modelled as a stable insertion sort.
- The two stores are modelled separately because their rules differ. The
  server store lower-cases its whole URL key; the web store keeps the case of
  path and query and returns an unparseable URL unchanged. The server store
  merges every duplicate; the web store merges only when tags are supplied.
  Only the web store cleans tags and trims fields on creation. Only the web
  store's free-text query searches tag text. Only the server store widens
  `dateTo` to the end of its day.
- In the server store, `saveItem` writes the merged record into the slot that
  `findIndex` finds by the duplicate's id. That is the duplicate's own slot
  only when ids are unique, so the slot and invariant guarantees are stated
  under `UniqueIds`.
- In the web store, `saveItem` checks for a duplicate with the untrimmed url
  but stores the trimmed one. Keeping stored links distinct is therefore
  proved for inputs whose url is already trimmed (the web client trims it
  before calling).

## Model

| member | source | states |
|---|---|---|
| `Text.Lower` | src/storage.ts:69 | same length, each character mapped by the ASCII lower-casing |
| `Text.LowerAppend` | src/storage.ts:69 | lower-casing a concatenation is concatenating the lower-cased parts |
| `Text.LowerOfLowerCase` | src/storage.ts:69 | lower-casing a lower-case string changes nothing |
| `Text.TrimStart` | src/storage.ts:72 | a suffix of the input that starts with a non-space; everything dropped is space |
| `Text.TrimEnd` | src/storage.ts:72 | a prefix of the input that ends with a non-space; everything dropped is space |
| `Text.Trim` | src/storage.ts:72 | the middle of the input with only white space removed at both ends: no space left at either end, and the input itself when it has no spaces |
| `Text.TrimOfTrimmed` | src/storage.ts:72 | trimming a trimmed string changes nothing |
| `Text.LeadingSpace` | src/storage.ts:72 | the number of white-space characters at the front: all of them space, and the next character is not |
| `Text.TrailingSpace` | src/storage.ts:72 | the number of white-space characters at the end: all of them space, and the character before is not |
| `Text.TrimIsMiddle` | src/storage.ts:72 | trimming the end of the start-trimmed string leaves a middle slice of the input with only space around it |
| `Text.TrimKeepsLowerCase` | web-ui/lib/storage.ts:130 | trimming keeps a string lower-case |
| `Text.ContainsAt` | src/storage.ts:158 | `includes` holds exactly when the needle occurs at some position |
| `Text.OccursAtContains` | src/storage.ts:158 | an occurrence at a position makes `includes` true |
| `Text.NatToString` | web-ui/lib/chat-helpers.ts:48 | a non-empty string of decimal digits |
| `Text.Join` | web-ui/lib/chat-helpers.ts:66-71 | the first part is a prefix of the joined string |
| `Text.JoinContainsAll` | web-ui/lib/chat-helpers.ts:66-71 | every part occurs in the joined string |
| `Text.RunLength` | web-ui/lib/chat-helpers.ts:61 | the longest run of non-spaces at the front |
| `Text.Words` | web-ui/lib/chat-helpers.ts:61 | the pieces of `split(/\s+/)` that are not empty: every word is non-empty and has no space |
| `Text.WordsOfWord` | web-ui/lib/chat-helpers.ts:61 | a non-empty space-free string is one word |
| `Text.WordsOfSpaces` | web-ui/lib/chat-helpers.ts:61 | a string of white space only has no words |
| `Text.WordsSplit` | web-ui/lib/chat-helpers.ts:61 | splitting at a white-space character: the words of the whole are the words of the left part followed by those of the right part |
| `Seqs.Dedup` | src/storage.ts:97 | `[...new Set(xs)]`: no repeats, and an element is kept exactly when it occurs in the input |
| `Seqs.DedupPrefix` | src/storage.ts:97 | de-duplicating `a + b` starts with the de-duplicated `a`, so first occurrences keep their order |
| `Seqs.DedupOfDistinct` | src/storage.ts:97 | a list without repeats is unchanged |
| `Seqs.Filter` | web-ui/lib/storage.ts:158 | `filter`: each element the predicate keeps occurs as often as in the input, the others not at all |
| `Seqs.FilterAppend` | web-ui/lib/storage.ts:158 | filtering a concatenation is concatenating the filtered parts, so the filter keeps order |
| `Seqs.FilterAll` | web-ui/lib/storage.ts:158 | a list whose every element is kept passes unchanged |
| `Sorting.InsertDesc` | src/storage.ts:187-189 | inserting into a sorted list keeps it sorted and adds exactly that element |
| `Sorting.SortDesc` | src/storage.ts:187-189 | sorted by key, largest first, and a permutation of the input |
| `Sorting.InsertDescWithKey` | src/storage.ts:187-189 | inserting puts the element before every element of equal key |
| `Sorting.SortDescStable` | src/storage.ts:187-189 | the sort is stable: elements of equal key keep their input order |
| `Sorting.SortDescStableAll` | src/storage.ts:187-189 | stability for every key at once |
| `ContentItems.FirstWhere` | src/storage.ts:81-85 | `findIndex`/`find` with a predicate: the first index whose item satisfies it; none exactly when no item does |
| `ContentItems.Restored` | src/storage.ts:24-35 | the store starts from the parsed array, else empty |
| `ContentItems.IndexOfId` | src/storage.ts:222 | `findIndex` by id: the first index with that id, or none exactly when no item has it |
| `ContentItems.RemoveAt` | src/storage.ts:227 | `splice(k, 1)`: one shorter, items before `k` unchanged, items after shifted down by one |
| `ContentItems.RemoveAtUnique` | src/storage.ts:221-230 | with unique ids, removing an item removes its id and keeps the other ids unique |
| `ContentItems.FindById` | src/storage.ts:235-237 | the first item with that id, or none exactly when no item has it |
| `ContentItems.CreatedSince` | src/storage.ts:201-203 | exactly the items created at or after the cutoff, each as often as stored |
| `ContentItems.NewestFirst` | src/storage.ts:186-189 | newest first, a permutation of the input, equal timestamps in input order |
| `ContentItems.RecentPrefix` | src/storage.ts:197-216 | any prefix of the newest-first items created since the cutoff is sorted newest first and holds only stored items created since the cutoff |
| `ServerStorage.MergedTags` | src/storage.ts:97 | merged tags have no repeats and are exactly the old and new tags; the old tags keep their places at the front |
| `ServerStorage.MergeDuplicate` | src/storage.ts:95-104 | the merged record keeps id, type, url and creation time; its tags are the `Set` union of old and new; a non-empty stored title or body is kept, an empty one takes the input; `updatedAt` is stamped |
| `ServerStorage.CreateItem` | src/storage.ts:121-125 | the appended record is the input as given, with the new id, the creation time and no `updatedAt` |
| `ServerStorage.Matching` | src/storage.ts:152-184 | exactly the items that pass every supplied filter (query on title, body and url; any tag; `createdAt` from `dateFrom` to the end of day of `dateTo`) |
| `ServerStorage.DateFromOnly` | src/storage.ts:174-177 | with only `dateFrom`, the search keeps exactly the items created since then |
| `ServerStorage.Storage.constructor` | src/storage.ts:18-39 | the store starts from the loaded snapshot, which counts as persisted |
| `ServerStorage.Storage.NormalizeUrl` | src/storage.ts:65-74 | for a parseable URL, protocol, `//`, host, the path less one trailing '/' and the query, lower-cased, without the fragment; otherwise the input lower-cased and trimmed |
| `ServerStorage.Storage.KeyIsLowerCase` | src/storage.ts:65-74 | every link key is lower-case, whether or not the URL parses |
| `ServerStorage.Storage.SameLinkUpToCase` | src/storage.ts:69 | URLs that agree up to case in protocol, host, path (less one '/') and query get the same key, whatever their fragments |
| `ServerStorage.Storage.FirstLinkTo` | src/storage.ts:81-85 | the first link whose url normalises to the key; none exactly when there is no such link |
| `ServerStorage.Storage.FindDuplicateUrl` | src/storage.ts:79-86 | returns a stored link with a non-empty url that normalises as the input does, the first such link in order; none exactly when no link matches |
| `ServerStorage.Storage.SaveItem` | src/storage.ts:91-134 | a link with a matching stored link is a duplicate; then nothing is added and the merged record replaces the slot of the duplicate's id, which with unique ids is the duplicate's own slot; otherwise exactly one item is appended; unique ids and distinct link keys are kept |
| `ServerStorage.Storage.MergeKeepsInvariants` | src/storage.ts:107-111 | with unique ids, the slot found by id holds the duplicate, and replacing it keeps ids unique and link keys distinct |
| `ServerStorage.Storage.AppendKeepsInvariants` | src/storage.ts:127 | appending an item with a fresh id and an unmatched link key keeps both invariants |
| `ServerStorage.Storage.DistinctLinksReplace` | src/storage.ts:109 | replacing an item by one with the same type and url keeps link keys distinct |
| `ServerStorage.Storage.DistinctLinksAppend` | src/storage.ts:127 | appending a link whose key no stored link has keeps link keys distinct |
| `ServerStorage.Storage.DistinctLinksRemove` | src/storage.ts:227 | removing an item keeps link keys distinct |
| `ServerStorage.Storage.GetAllItems` | src/storage.ts:139-141 | a copy of the collection in stored order |
| `ServerStorage.Storage.SearchItems` | src/storage.ts:146-192 | exactly the matching items, each as often as stored, newest first, equal timestamps in collection order |
| `ServerStorage.Storage.GetRecentItems` | src/storage.ts:197-216 | a prefix of the stored items created since the cutoff, newest first; exactly `min(limit, n)` of them when `limit` is positive, and all of them otherwise |
| `ServerStorage.Storage.RecentIsSearchFrom` | src/storage.ts:197-216 | the recent listing is the `dateFrom` search, cut to the limit |
| `ServerStorage.Storage.DeleteItem` | src/storage.ts:221-230 | false and no change for an unknown id; otherwise exactly the first item with that id is removed; unique ids then no longer include it; distinct link keys are kept |
| `ServerStorage.Storage.GetItemById` | src/storage.ts:235-237 | the first item with that id, or none exactly when no item has it |
| `WebStorage.CleanTag` | web-ui/lib/storage.ts:130 | `tag.toLowerCase().trim()` is lower-case and trimmed |
| `WebStorage.CleanTagIdempotent` | web-ui/lib/storage.ts:130 | cleaning a cleaned tag changes nothing |
| `WebStorage.NonEmpty` | web-ui/lib/storage.ts:158 | the filter keeps exactly the non-empty strings, each as often as given, and drops the empty ones |
| `WebStorage.NonEmptyComplete` | web-ui/lib/storage.ts:158 | the filter drops no non-empty string |
| `WebStorage.NonEmptyOfNonEmpty` | web-ui/lib/storage.ts:158 | a list without empty strings passes unchanged |
| `WebStorage.NonEmptyAppend` | web-ui/lib/storage.ts:158 | filtering a concatenation is concatenating the filtered parts, so order is kept |
| `WebStorage.CleanTagsAreClean` | web-ui/lib/storage.ts:158 | every cleaned tag is lower-case and trimmed |
| `WebStorage.CreationTags` | web-ui/lib/storage.ts:158 | every stored tag is lower-case, trimmed and non-empty; each non-empty cleaned tag is kept as often as it was given, repeats not removed |
| `WebStorage.CreationTagsComplete` | web-ui/lib/storage.ts:158 | every given tag whose clean form is non-empty is stored |
| `WebStorage.CreationTagsIdempotent` | web-ui/lib/storage.ts:158 | cleaning the stored tags again changes nothing |
| `WebStorage.CreationTagsAppend` | web-ui/lib/storage.ts:158 | the creation tags of a concatenation are those of the first part followed by those of the second, so input order is kept |
| `WebStorage.CreationTagsOne` | web-ui/lib/storage.ts:158 | a single tag is stored as its cleaned form when that is non-empty, and dropped otherwise |
| `WebStorage.CleanTagsAppend` | web-ui/lib/storage.ts:158 | cleaning a concatenation is concatenating the cleaned parts |
| `WebStorage.Backfill` | web-ui/lib/storage.ts:134-139 | a non-empty stored title or body is kept; an empty one takes the input trimmed when the input is non-empty |
| `WebStorage.MergeInto` | web-ui/lib/storage.ts:129-141 | the merged link keeps id, type, url and creation time; its tags are the stored tags with the cleaned new ones added as a set; empty fields are backfilled; `updatedAt` is stamped |
| `WebStorage.CreateItem` | web-ui/lib/storage.ts:152-160 | the created record has the new id, the type, the trimmed title, body and url, the creation tags, the creation time and no `updatedAt` |
| `WebStorage.MergedTags` | web-ui/lib/storage.ts:129-131 | merged tags have no repeats, start with the stored tags (repeats collapsed) in order, and are exactly the stored and the cleaned new tags |
| `WebStorage.MergeKeepsBlankTag` | web-ui/lib/storage.ts:130-131 | unlike creation, the merge stores a tag that cleans to the empty string |
| `WebStorage.Matching` | web-ui/lib/storage.ts:180-210 | exactly the items that pass every supplied filter (query also on tag text; any tag; `createdAt` between `dateFrom` and `dateTo` as given) |
| `WebStorage.DateFromOnly` | web-ui/lib/storage.ts:203-206 | with only `dateFrom`, the search keeps exactly the items created since then |
| `WebStorage.QuerySeesTags` | web-ui/lib/storage.ts:189 | a query found in a tag's text selects the item |
| `WebStorage.Storage.constructor` | web-ui/lib/storage.ts:32-62 | the store starts from the loaded snapshot, else empty |
| `WebStorage.Storage.NormalizeUrl` | web-ui/lib/storage.ts:97-106 | for a parseable URL, the origin, the path less one trailing '/' and the query, case kept, without the fragment; otherwise the input unchanged |
| `WebStorage.Storage.PathCaseKept` | web-ui/lib/storage.ts:101 | paths that differ, even only in case, give different keys |
| `WebStorage.Storage.FirstLinkTo` | web-ui/lib/storage.ts:122-124 | the first link whose url normalises to the key; none exactly when there is no such link |
| `WebStorage.Storage.MergeKeepsInvariants` | web-ui/lib/storage.ts:129-141 | updating a record in place with the same id, type and url keeps ids unique and link keys distinct |
| `WebStorage.Storage.AppendKeepsInvariants` | web-ui/lib/storage.ts:162 | appending an item with a fresh id keeps ids unique, and keeps link keys distinct when its key is new |
| `WebStorage.Storage.CreateKeepsInvariants` | web-ui/lib/storage.ts:152-162 | appending the created item keeps ids unique, and keeps link keys distinct when the given url is already trimmed |
| `WebStorage.Storage.RemoveKeepsInvariants` | web-ui/lib/storage.ts:253 | removing an item keeps ids unique, removes its id, and keeps link keys distinct |
| `WebStorage.Storage.SaveItem` | web-ui/lib/storage.ts:112-169 | a link matching a stored link never adds an item and is a duplicate; with new tags the first matching link is merged in its own slot, otherwise it is returned and nothing changes; any other save appends exactly the created item; unique ids are kept, and so are distinct link keys for a trimmed url |
| `WebStorage.Storage.UpdateAt` | web-ui/lib/storage.ts:127-142 | the found link's slot takes the merged record and the collection is persisted; nothing else changes |
| `WebStorage.Storage.Push` | web-ui/lib/storage.ts:162-163 | `push` then `persist`: exactly the created record is appended and the collection is persisted |
| `WebStorage.Storage.SearchItems` | web-ui/lib/storage.ts:174-214 | exactly the matching items, each as often as stored, newest first, equal timestamps in collection order |
| `WebStorage.Storage.GetRecentItems` | web-ui/lib/storage.ts:219-228 | a prefix of the stored items created since the cutoff, newest first; exactly `min(limit, n)` of them when `limit` is positive, and `n + limit` (at least none) when it is negative, as `slice(0, limit)` does; with no limit or zero, all of them |
| `WebStorage.Storage.RecentIsSearchFrom` | web-ui/lib/storage.ts:219-228 | the recent listing is the `dateFrom` search, and with a non-zero limit that search cut by `slice(0, limit)` |
| `WebStorage.Storage.GetAllItems` | web-ui/lib/storage.ts:233-235 | every item, newest first, equal timestamps in collection order, the stored order untouched |
| `WebStorage.Storage.GetItemById` | web-ui/lib/storage.ts:240-242 | the first item with that id, or none exactly when no item has it |
| `WebStorage.Storage.DeleteItem` | web-ui/lib/storage.ts:247-256 | false and no change for an unknown id; otherwise exactly the first item with that id is removed; invariants kept |
| `ChatHelpers.Last` | web-ui/lib/chat-helpers.ts:19-22 | the last `n` elements, all of them when there are fewer |
| `ChatHelpers.LastOfSuffix` | web-ui/lib/chat-helpers.ts:19-22 | a suffix at least as long as the window has the same last `n` elements |
| `ChatHelpers.Appended` | web-ui/lib/chat-helpers.ts:16-22 | the history ends with the new message; a history within the cap becomes its ten most recent messages; a full one drops exactly its oldest |
| `ChatHelpers.WindowSlides` | web-ui/lib/chat-helpers.ts:16-22 | adding one message then the rest keeps the same ten-message window as the whole |
| `ChatHelpers.KeepsMostRecent` | web-ui/lib/chat-helpers.ts:12-23 | after any number of additions a session holds the ten most recent messages it was sent, oldest first |
| `ChatHelpers.ConversationHistory.constructor` | web-ui/lib/chat-helpers.ts:10 | no session has a history |
| `ChatHelpers.ConversationHistory.History` | web-ui/lib/chat-helpers.ts:25-27 | the session's messages, none for an unknown or cleared session, never more than ten |
| `ChatHelpers.ConversationHistory.AddMessage` | web-ui/lib/chat-helpers.ts:12-23 | only that session changes, to its history with the message added and capped; the cap is kept |
| `ChatHelpers.ConversationHistory.Clear` | web-ui/lib/chat-helpers.ts:29-31 | only that session is forgotten, and its history is then empty |
| `ChatHelpers.LongWords` | web-ui/lib/chat-helpers.ts:61 | keeps exactly the words longer than two characters, each as often as given |
| `ChatHelpers.LongWordsAppend` | web-ui/lib/chat-helpers.ts:61 | filtering a concatenation is concatenating the filtered parts, so word order is kept |
| `ChatHelpers.QueryWords` | web-ui/lib/chat-helpers.ts:60-61 | the query words are longer than two characters and space-free; each long word of the lower-cased query is kept as often as it occurs |
| `ChatHelpers.QueryWordsSplit` | web-ui/lib/chat-helpers.ts:60-61 | the query words of a message split at a white-space character are those of the left part followed by those of the right part |
| `ChatHelpers.WordHits` | web-ui/lib/chat-helpers.ts:74-78 | at most one hit per word; no hit exactly when no word occurs in the text |
| `ChatHelpers.Relevance` | web-ui/lib/chat-helpers.ts:64-88 | the score is at most the number of query words plus five |
| `ChatHelpers.CountWordHits` | web-ui/lib/chat-helpers.ts:74-78 | the `forEach` loop counts the word hits |
| `ChatHelpers.ScoreItem` | web-ui/lib/chat-helpers.ts:64-88 | the scoring callback computes the relevance: word hits, plus 3 for the title, plus 2 for a tag |
| `Text.PartInJoin` | web-ui/lib/chat-helpers.ts:66-71 | the part at each index occurs in the joined string |
| `ChatHelpers.ContainsLower` | web-ui/lib/chat-helpers.ts:71 | lower-casing keeps occurrences |
| `ChatHelpers.ContainsTransitive` | web-ui/lib/chat-helpers.ts:75 | an occurrence within an occurrence is an occurrence |
| `ChatHelpers.PartWordIsHit` | web-ui/lib/chat-helpers.ts:66-78 | a query word found in the title, body, url or any tag makes the item relevant |
| `ChatHelpers.EmptyQueryScoresAll` | web-ui/lib/chat-helpers.ts:81-83 | an empty query is found in every title, so every item scores at least 3 |
| `ChatHelpers.ScoresSnoc` | web-ui/lib/chat-helpers.ts:63-89 | scoring one more item appends its pair |
| `ChatHelpers.Positive` | web-ui/lib/chat-helpers.ts:90 | only pairs from the input with a positive score |
| `ChatHelpers.Ranked` | web-ui/lib/chat-helpers.ts:90 | exactly the items with a positive score, each as often as given |
| `ChatHelpers.RankedWithKey` | web-ui/lib/chat-helpers.ts:90-91 | dropping items with no score keeps the order of each positive score's items |
| `ChatHelpers.ConsistentSorted` | web-ui/lib/chat-helpers.ts:91-92 | pairs sorted by score give items sorted by score |
| `ChatHelpers.InsertCommutes` | web-ui/lib/chat-helpers.ts:91-92 | inserting a pair then dropping scores is inserting its item |
| `ChatHelpers.SortCommutes` | web-ui/lib/chat-helpers.ts:91-92 | sorting pairs by score then dropping scores is sorting the items by score |
| `ChatHelpers.PositiveItems` | web-ui/lib/chat-helpers.ts:89-92 | filtering the pairs then dropping scores is filtering the items |
| `ChatHelpers.RankingAgrees` | web-ui/lib/chat-helpers.ts:63-92 | the map, filter, sort and map pipeline ranks the items by score |
| `ChatHelpers.RelevantItems` | web-ui/lib/chat-helpers.ts:59-93 | exactly the items with a positive score, each as often as given, most relevant first, equally relevant ones in input order |
| `ChatHelpers.EmptyQueryKeepsAll` | web-ui/lib/chat-helpers.ts:81-90 | an empty query ranks every item |
| `ChatHelpers.ScoreAll` | web-ui/lib/chat-helpers.ts:63-89 | the loop pairs every item with its score |
| `ChatHelpers.FindRelevantItems` | web-ui/lib/chat-helpers.ts:59-93 | returns the ranking `RelevantItems` describes |
| `ChatHelpers.DetailedEntry` | web-ui/lib/chat-helpers.ts:39-54 | an entry starts with its number, type label and title line, and holds the full body after "Content: " |
| `ChatHelpers.FirstEntryHead` | web-ui/lib/chat-helpers.ts:47-48 | the first entry is headed "Item #1" |
| `ChatHelpers.FormatItemsDetailed` | web-ui/lib/chat-helpers.ts:34-56 | "No items saved yet." exactly for no items; otherwise the listing starts with item 1 and holds the entry of each of the first fifty items, item k numbered k |
| `ChatHelpers.ListsEachEntry` | web-ui/lib/chat-helpers.ts:39-56 | the joined entries hold the entry of each of the first fifty items |
| `ChatHelpers.DetailedCapped` | web-ui/lib/chat-helpers.ts:39 | items after the fiftieth are not listed |
| `ChatRoute.SchemeAt` | web-ui/app/api/chat/route.ts:458 | the URL pattern can start at a position exactly when `https://` or `http://` (any case) is there and followed by a non-space; the longer scheme is taken when both fit |
| `ChatRoute.SchemeHasNoSpace` | web-ui/app/api/chat/route.ts:458 | the matched scheme holds no space |
| `ChatRoute.UrlMatchAt` | web-ui/app/api/chat/route.ts:458 | the match is a space-free slice of the message, longer than its scheme, and cannot be extended |
| `ChatRoute.FirstUrlFrom` | web-ui/app/api/chat/route.ts:458-459 | the leftmost position where the pattern matches; none exactly when it matches nowhere |
| `ChatRoute.FirstUrl` | web-ui/app/api/chat/route.ts:458-459 | the first URL: none exactly when the pattern matches nowhere; otherwise the text from the leftmost position where the pattern can start up to the next white space or the end |
| `ChatRoute.KeywordAt` | web-ui/app/api/chat/route.ts:478 | a keyword matches at a position exactly when `save`, `remember` or `note` (any case) is there; its length is that word's |
| `ChatRoute.SeparatorRun` | web-ui/app/api/chat/route.ts:478 | the longest run of ':' and spaces at a position |
| `ChatRoute.LineRun` | web-ui/app/api/chat/route.ts:478 | the longest run without line terminators at a position |
| `ChatRoute.CaptureStart` | web-ui/app/api/chat/route.ts:478 | where `(.+)` starts after backtracking: the last separator position, keeping at least one separator, that is not a line terminator |
| `ChatRoute.CaptureAfter` | web-ui/app/api/chat/route.ts:478 | after a keyword ending at a position, a capture exists exactly when `(.+)` can start after the separators; it is a non-empty line remainder preceded only by separators |
| `ChatRoute.NoteMatchAt` | web-ui/app/api/chat/route.ts:478 | a capture exists exactly when a keyword is at the position and `(.+)` can start after its separators; it then begins after at least one separator and runs to the next line terminator or the end |
| `ChatRoute.FirstFrom` | web-ui/app/api/chat/route.ts:478-479 | the least position in a range that satisfies a test; none exactly when no position does |
| `ChatRoute.FirstNoteFrom` | web-ui/app/api/chat/route.ts:478-479 | the leftmost position where the note pattern matches; none exactly when it matches nowhere |
| `ChatRoute.NoteCaptureFrom` | web-ui/app/api/chat/route.ts:478-479 | the capture of the leftmost position where the note pattern matches; none exactly when it matches at no position |
| `ChatRoute.DetectSaveIntent` | web-ui/app/api/chat/route.ts:454-485 | a link intent, with the first URL, exactly when a URL is present and the trimmed message is that URL or has a save keyword; a note intent exactly when no URL is present, the message is longer than 20, has save/remember/note, and the note pattern captures; its content is that capture trimmed |
| `ChatRoute.BareUrlIsLink` | web-ui/app/api/chat/route.ts:461-471 | a message that is only an `https://` URL is saved as that link |
| `ChatRoute.ShortMessageIsNotNote` | web-ui/app/api/chat/route.ts:475-484 | a message without a URL of at most twenty characters asks for nothing |
| `ChatRoute.CountKind` | web-ui/app/api/chat/route.ts:506-507 | the number of items of one type, at most the total |
| `ChatRoute.KindsAddUp` | web-ui/app/api/chat/route.ts:505-511 | notes and links add up to the number of items |
| `ChatRoute.AllTags` | web-ui/app/api/chat/route.ts:515 | exactly the tags of the items |
| `ChatRoute.DedupKeepsSome` | web-ui/app/api/chat/route.ts:516-517 | de-duplicating a non-empty list leaves something |
| `ChatRoute.ChooseFallback` | web-ui/app/api/chat/route.ts:503-544 | the first of count, topics, recent, summary that the message asks decides the reply; the count, summary, no-topics and help replies carry the item count, and the count and summary replies the exact note and link counts; the help reply is given exactly when none of the four is asked; the topics are exactly `slice(0, 10)` of the distinct tags in first-seen order; the recent items are exactly `slice(0, 5)` of the items |
| `ChatRoute.TopicsOf` | web-ui/app/api/chat/route.ts:515-518 | the listed topics are at most ten, distinct, the first ones seen, and tags of the items |
| `ChatRoute.RecentLine` | web-ui/app/api/chat/route.ts:528-530 | a recent-items line starts with its number and ". " and holds the title, or "(Untitled)" |
| `ChatRoute.Render` | web-ui/app/api/chat/route.ts:510-545 | the topics reply names every topic and the recent-items reply every title |
| `ChatRoute.RenderLeadsWithTotal` | web-ui/app/api/chat/route.ts:510-545 | the count, no-topics and summary replies open with "You have " and the number of items; the help reply names that number; with `ChooseFallback`, that number is the item count |
| `ChatRoute.CountText` | web-ui/app/api/chat/route.ts:511 | the count reply opens with "You have " and the number of items |
| `ChatRoute.TopicsText` | web-ui/app/api/chat/route.ts:518 | the topics reply opens with its fixed lead and names every topic |
| `ChatRoute.NoTopicsText` | web-ui/app/api/chat/route.ts:520 | the reply for untagged items opens with "You have " and the number of items |
| `ChatRoute.RecentText` | web-ui/app/api/chat/route.ts:528-530 | the recent-items reply names the title of every listed item |
| `ChatRoute.SummaryText` | web-ui/app/api/chat/route.ts:534 | the summary reply opens with "You have " and the number of items |
| `ChatRoute.HelpText` | web-ui/app/api/chat/route.ts:538-544 | the help reply opens with "I can help you analyze your " and the number of items |
| `ChatRoute.GenerateFallbackResponse` | web-ui/app/api/chat/route.ts:503-545 | a count question gets the count reply with the item, note and link counts; a topic question with tagged items gets the topics reply |
| `ChatRoute.CountBeatsTopics` | web-ui/app/api/chat/route.ts:510-514 | a count question is answered with counts even when it also asks about topics |
| `ChatRoute.Excerpt` | web-ui/app/api/chat/route.ts:495 | a body of at most 300 characters unchanged, a longer one cut to 300 followed by "..." |
| `ChatRoute.ContextEntry` | web-ui/app/api/chat/route.ts:492-499 | an entry starts with its number, ". ", the type label and ": ", and holds the body cut by `Excerpt` after "Content: " |
| `ChatRoute.FirstContextHead` | web-ui/app/api/chat/route.ts:499 | the first entry is numbered 1 |
| `ChatRoute.FormatItemsForContext` | web-ui/app/api/chat/route.ts:487-501 | "No items saved yet." exactly for no items; otherwise the listing starts with item 1 and holds the entry of each of the first thirty items, item k numbered k |
| `ChatRoute.ListsEachEntry` | web-ui/app/api/chat/route.ts:492-500 | the joined entries hold the entry of each of the first thirty items |
| `ChatRoute.ContextCapped` | web-ui/app/api/chat/route.ts:492 | items after the thirtieth are not listed |

## Left out

- File I/O in `initialize` and `persist`: directory creation, JSON reading, parsing and writing, and error handling. Loading is modelled as "the parsed array, else empty". Writing is the ghost field `persisted`. The server store's `persist` throws on a failed write; that error path is not modelled. The "atomic" write writes the canonical file directly after the temporary one (src/storage.ts:47-49), so there is no atomicity to model.
- A stored record that is not a well-formed `ContentItem` (missing `tags`, a non-string field). Loaded data is assumed well-formed.
- `generateId` (clock and randomness): the caller supplies a fresh id.
- `new Date(...)` parsing, invalid dates, `setHours`, `setDate` and local time: dates are integers, and `now`, the cutoff and the end of day of `dateTo` are parameters.
- WHATWG URL parsing: `new URL` is the parameter `parse`.
- Unicode case mapping: `toLowerCase` and the regex `i` flag are modelled on ASCII letters only.
- UTF-16: lengths, `substring(0, 300)` and `message.length > 20` count code points, not UTF-16 code units.
- `toLocaleDateString`: the parameter `localeDate`.
- ServerStorage.CreateItem: any `updatedAt` the caller passes is spread into the new record by the source; the model's input has no `updatedAt`.
- The `createdAt ? … : 'unknown'` and `createdAt ? … : ''` branches of the two listings: a stored `createdAt` is always present in the model.
- Aliasing: callers receive the stored objects themselves (and, in the web store, the in-place merged object; in the history, the live array). The model returns values, so later mutation through such a reference is not captured.
- MCP server plumbing, Express routes, the MCP client, OpenAI calls (`POST`, `handleSaveIntent`), React components, and the configuration and environment-check scripts.
- WebStorage.Storage.SaveItem: distinct link keys are guaranteed only for an already-trimmed url, because the duplicate check uses the untrimmed url while the stored url is trimmed.
- KeyIsLowerCase: whether two case variants of a parseable URL collide depends on the URL parser, which is the parameter `parse`; `SameLinkUpToCase` states the collision when the parsed parts agree up to case.
- The `limit` of `getRecentItems` is modelled as an optional integer; the source's JavaScript number can also be fractional, or `NaN` from `parseInt`.
- ServerStorage.Storage.SaveItem: the merged slot is the duplicate's own, and link keys stay distinct, only when ids are unique, because `findIndex` looks the duplicate up by id.
