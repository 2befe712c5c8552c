# CodeShareX snippet core in Dafny

This project models the code-snippet part of CodeShareX, a web application for
sharing code. It covers five pieces:

- The `code_snippets` record and the validation its insert schema performs on
  a JSON request body (`Schema`, over the string primitives in `Text`).
- `MemStorage`, the in-memory snippet table (`Storage`). It is a class whose
  state is a map from id to record plus the insertion order of the keys, since
  a JavaScript `Map` iterates in that order. Its methods state the exact new
  table.
- The five snippet routes (`Routes`). Each is a method that returns the status
  code and JSON body the handler sends.
- The gallery page's filter, sort and pagination, and its page-navigation
  state (`Gallery`).
- The share page's save handler: the blank checks, tag parsing and the insert
  form it submits (`Share`).

`Ordering` holds the stable descending sort and the filter that both the
storage and the gallery use.

Outside inputs become parameters:

- `randomUUID()` is a fresh `id` with the precondition that it is not already
  in the table.
- `new Date()` is a `now` timestamp in milliseconds.
- A query-string value is a `Param`: missing, a string, or a non-string (an
  array or an object, which the query parser produces for repeated or
  bracketed keys).

Facts about the program that shape the model:

- The search matches tags as well as title and code (server/storage.ts:55).
- The record has no owner column, and the storage and routes have no
  list-by-owner or delete operation.

## Model

| member | source | states |
|---|---|---|
| `Schema.ParseInsert` | shared/schema.ts:21-27 | A body validates exactly when it is an object whose four text fields are strings, whose `tags` is missing, null or an array of strings, and whose flags are missing or booleans. On success the result carries exactly those strings, the tags and the given flags (absent when left out). A failure names at least one field. |
| `Schema.ParseToJson` | shared/schema.ts:21-29 | Every insert form, serialised as JSON, validates back to itself. |
| `Schema.ParseIgnoresOtherKeys` | shared/schema.ts:21-27 | Setting any key outside the insert form's seven fields does not change the validation result. |
| `Schema.OmittedFieldsIgnored` | shared/schema.ts:21-27 | `id`, `views`, `likes`, `createdAt` and `updatedAt` in a body have no effect, so a client cannot set them. |
| `Schema.FlagReported` | shared/schema.ts:13-14 | A present `isPublic` or `allowComments` that is not a boolean, null included, fails validation and is named among the reported paths. |
| `Schema.TagsReported` | shared/schema.ts:12 | A present `tags` that is neither null nor an array of strings fails validation and is named among the reported paths. |
| `Schema.RequiredFieldReported` | shared/schema.ts:8-11 | A missing, null or non-string `title`, `code`, `language` or `category` fails validation, and its name is among the reported paths. |
| `Schema.NullableColumns` | shared/schema.ts:12-14 | A null `tags` validates to the same result as a missing one (the model does not keep the two apart). A null `isPublic` or `allowComments` is reported, although leaving it out is accepted. |
| `Schema.NewSnippetFlags` | shared/schema.ts:13-14 | Each stored flag, `isPublic` and `allowComments`, is the given one, or the column default `true` when absent. Otherwise the record matches the spread as written. |
| `Schema.SpreadLosesPublicDefault` | server/storage.ts:20-33 | As written, a body without `isPublic` validates with the flag absent, so the spread record is not public, while the record with the column default would be. |
| `Text.LeadingWhitespace` | client/src/pages/share.tsx:111 | The length of the leading whitespace run: every character before it is whitespace, and the next one is not. |
| `Text.WithoutTrailingWhitespace` | client/src/pages/share.tsx:111 | The length without the trailing whitespace run: every character after it is whitespace, and the last one kept is not. |
| `Text.TrimIsInnerInfix` | client/src/pages/share.tsx:134 | `trim` returns the infix left after removing whitespace at both ends. That infix neither starts nor ends with whitespace. |
| `Text.BlankIffAllWhitespace` | client/src/pages/share.tsx:111 | `!s.trim()` holds exactly when every character of `s` is whitespace. |
| `Text.Lower` | server/storage.ts:52-55 | Lower-casing keeps the length and maps each character on its own. |
| `Text.OccurrenceOf` | server/storage.ts:52-55 | Where `includes` holds, it yields a position at which the needle occurs. |
| `Text.ContainedAt` | server/storage.ts:52-55 | An occurrence of the needle at any position makes `includes` hold; with `Text.OccurrenceOf`, `includes` means exactly "occurs somewhere". |
| `Text.ExactImpliesCaseInsensitive` | server/storage.ts:52-55 | A literal occurrence is also found after both sides are lower-cased. |
| `Text.Split` | client/src/pages/share.tsx:134 | `split(",")` gives one piece per comma plus one. No piece contains the separator, and joining the pieces gives the input back. |
| `Text.SplitJoin` | client/src/pages/share.tsx:134 | Splitting the join of separator-free pieces gives the pieces back. |
| `Ordering.SortDesc` | server/storage.ts:40-42 | The sort result is a permutation of its input and is non-increasing in the key. |
| `Ordering.FilterCount` | server/storage.ts:50-61 | `filter` keeps each element that satisfies the predicate as often as it occurs, and drops every other element. |
| `Ordering.FilterMembership` | server/routes.ts:46 | An element is in the filtered list exactly when it was in the input and satisfies the predicate. |
| `Ordering.FilterKeepsSorted` | server/storage.ts:50-61 | Filtering a newest-first list leaves it newest-first. |
| `Storage.MemStorage.constructor` | server/storage.ts:13-18 | The table starts empty. |
| `Storage.MemStorage.CreateCodeSnippet` | server/storage.ts:20-33 | Adds exactly the fresh id, last in iteration order, holding the record the spread builds: the input's fields, zero views and likes, and both timestamps `now`. A flag the input left out reads as false. Existing entries are unchanged. |
| `Storage.MemStorage.GetCodeSnippet` | server/storage.ts:35-37 | Returns the record under `id` exactly when there is one. |
| `Storage.MemStorage.GetAllCodeSnippets` | server/storage.ts:39-43 | Every stored record appears exactly once and nothing else does. The list is newest first. |
| `Storage.MemStorage.SearchCodeSnippets` | server/storage.ts:45-62 | The result is exactly the stored records that match the query and filters and are public, each once, newest first. |
| `Storage.MemStorage.IncrementViews` | server/storage.ts:64-71 | The table becomes `ViewedTable` of the old table, and the key order is unchanged. |
| `Storage.MemStorage.ToggleLike` | server/storage.ts:73-82 | The table becomes `LikedTable` of the old table. The method returns the updated record exactly when the id was present. |
| `Storage.ViewedTable` | server/storage.ts:64-71 | Same keys. The entry under `id`, if present, has one more view and `updatedAt = now`, with its other fields and all other entries unchanged. |
| `Storage.LikedTable` | server/storage.ts:73-82 | Same keys. The entry under `id`, if present, has one more like and `updatedAt = now`, with its other fields and all other entries unchanged. |
| `Storage.LikesAccumulate` | server/storage.ts:73-82 | Liking n times adds n likes and leaves the last call's time. It is not a toggle. No other entry or key changes. |
| `Storage.ValuesOnce` | server/storage.ts:40 | `Array.from(map.values())` lists each stored record exactly once. |
| `Storage.FilterAcceptsCases` | server/storage.ts:57-58 | A missing or empty language or category filters nothing. A string demands equality. A non-string rejects every record. |
| `Storage.PrivateNeverMatches` | server/storage.ts:60 | A private record never matches a search. |
| `Storage.SpreadRecordHidden` | server/storage.ts:23-30 | A body that validates without `isPublic` is stored as a record that no search finds, and that `Routes.ListCodes` therefore counts zero times, while the defaulted record would be public. |
| `Storage.LiteralOccurrenceMatches` | server/storage.ts:52-55 | A public record whose title, code or some tag contains the query matches when no filter is given. |
| `Routes.PostCode` | server/routes.ts:9-21 | A valid body stores exactly one new record, the one the spread builds, and echoes it with 200. An invalid body gets 400 with the issue paths and leaves storage untouched. No 500. |
| `Routes.GetCode` | server/routes.ts:24-40 | An unknown id gets 404 and no view is counted. Otherwise exactly one more view is counted, and the record sent already carries it. |
| `Routes.ListCodes` | server/routes.ts:43-51 | The response is exactly the public stored records, each once, newest first. |
| `Routes.Search` | server/routes.ts:54-72 | A missing, empty or non-string `q` gets 400. Otherwise the response is the search result for `q` and the two filters. |
| `Routes.LikeCode` | server/routes.ts:75-88 | An unknown id gets 404 and the table is unchanged. Otherwise the response is the record with one more like. |
| `Gallery.FilteredSnippetsKeep` | client/src/pages/gallery.tsx:41-45 | A record is kept exactly when both filters, each with its "all" wildcard, accept it, and as often as it occurs. "all"/"all" keeps the list as is. |
| `Gallery.SortedSnippetsOrder` | client/src/pages/gallery.tsx:47-57 | The sorted list is a permutation of the filtered one. It is non-increasing in views under "popular", in likes under "rating", and in creation time otherwise. |
| `Gallery.TotalPagesIsCeiling` | client/src/pages/gallery.tsx:59-60 | `totalPages` is the least number of six-item pages holding n items, and is 0 exactly when n is 0. |
| `Gallery.PageAtMostSix` | client/src/pages/gallery.tsx:59-62 | No page holds more than six items, whatever the page number. |
| `Gallery.PageWindow` | client/src/pages/gallery.tsx:60-62 | Page p ≥ 1 is the window from (p-1)·6 to min(n, p·6). It is non-empty exactly when p ≤ `totalPages`, so pages past the last are empty. |
| `Gallery.PagesConcatenate` | client/src/pages/gallery.tsx:59-62 | Pages 1 to `totalPages` in order make up the whole sorted list. |
| `Gallery.PageButtons` | client/src/pages/gallery.tsx:174 | The numbered buttons are exactly 1 to `totalPages`. |
| `Gallery.AsWrittenPageAtLeastOne` | client/src/pages/gallery.tsx:161-195 | As written, no sequence of clicks and select changes takes the current page below 1. |
| `Gallery.StaleFilterHidesResults` | client/src/pages/gallery.tsx:97 | As written, narrowing the language filter on page 2 can leave an empty grid with no pagination controls while records match. |
| `Gallery.StepKeepsPageInRange` | client/src/pages/gallery.tsx:161-195 | With selects that go back to page 1, the current page stays within 1 to max(1, `totalPages`). The grid is then never empty while some record passes the filters. |
| `Share.ParseTagsShape` | client/src/pages/share.tsx:134 | An empty field gives no tags. Otherwise there is one tag per comma plus one, each the trimmed piece, without commas or outer whitespace. |
| `Share.EmptyPieceKept` | client/src/pages/share.tsx:134 | Two commas in a row give an empty tag: "a,,b" parses to a, "" and b. |
| `Share.TrimmedPiecesKept` | client/src/pages/share.tsx:134 | When every piece between commas is already trimmed, the tags are exactly the pieces of the split. |
| `Share.HandleSave` | client/src/pages/share.tsx:110-140 | Blank code is refused first, then a blank title, and only then is a form submitted. It carries the untrimmed editor values, the category, the parsed tags and both switches. |
| `Share.SubmissionAccepted` | client/src/pages/share.tsx:129-139 | Whatever the page submits passes the server's validation unchanged. The record created from it is public exactly when the switch was on. |

## Left out

- Users, sessions, password hashing, password-reset tokens and the profile
  routes. The server registers only the snippet routes (server/routes.ts);
  the client calls such endpoints, but nothing on the server answers them.
- The client's authentication hook, the login, register, password and profile
  pages, the code editor, and the presentational pages and components. These
  are I/O, UI and foreign calls.
- The Discord kick command (`kick.js`), which is unrelated to the application.
- Network and React state plumbing: `fetch`, the query cache, toasts, and the
  share form reset after a save. The share page's sign-in gate and the
  gallery's loading state are left out too.
- Express request/response plumbing, including a malformed JSON body that the
  body parser rejects before a handler runs.
- The 500 branches of the routes. The in-memory storage never throws, so no
  path reaches them.
- Concurrency: `async` calls are sequential steps, and simultaneous requests
  are not modelled.
- Records are values. The handler of GET /api/code/:id holds the same object
  that `incrementViews` mutates, so the model sends the looked-up record with
  the view applied.
- Strings are sequences of Unicode scalar values, not UTF-16 code units. A
  character outside the Basic Multilingual Plane is one character here and
  two code units in JavaScript, and a lone surrogate (which a JSON body can
  carry as `\uD800`) cannot be represented.
- A null `tags` and a missing `tags` are both `None`. The validated body keeps
  `tags: null`, so the stored record and its JSON echo carry `"tags": null`
  where the model has no tags field to tell the two apart.
- A flag the spread leaves `undefined` is modelled as `false`, the value every
  reader takes it as. The echoed JSON of such a record omits the key, which
  the model does not distinguish.
- Counters are unbounded integers. A JavaScript number is exact up to 2^53.
- JSON numbers are integers only. The insert schema reads no numeric field.
- Validation issues are reduced to the failing field paths. Zod's full issue
  objects are not modelled.
- Text.Lower: maps only the ASCII letters. `toLowerCase` also folds the rest
  of Unicode.
- Storage.MemStorage.GetAllCodeSnippets: does not state the order among
  records with equal `createdAt`. The sort is stable by definition, so it keeps
  insertion order there.
- Gallery.SortedSnippetsOrder: likewise does not state the order among
  records with equal keys.
- Gallery.StepKeepsPageInRange: the snippet list is fixed during a sequence of
  actions. Refetches after a like or a new snippet are not modelled.

## Findings

| source | as written | input that shows it | evidently intended | confidence | as-written member | corrected member |
|---|---|---|---|---|---|---|
| server/storage.ts:23-30 | The object spread copies the validated body as it is. The insert schema only makes the defaulted columns optional, so a missing `isPublic` stays `undefined`, and every reader treats that as false. | POST /api/code with `title`, `code`, `language` and `category` only. The record is stored but GET /api/code never lists it and search never finds it. | The column defaults apply: `isPublic` and `allowComments` are true when left out. | not executed; medium (depends on the insert schema not filling defaults) | `Storage.SpreadRecordHidden` | `Schema.NewSnippetFlags` |
| client/src/pages/gallery.tsx:97 | Changing the language, category or sort select never resets `currentPage`. | Seven records, six in Python: click next (page 2), then choose Python. One page remains, page 2 is empty, the empty-state message shows, and pagination is hidden. | Changing a select returns to page 1, so the current page is always a page that exists. | not executed; high | `Gallery.StaleFilterHidesResults` | `Gallery.StepKeepsPageInRange` |

The storage class and the routes store the record as the spread builds it, so
the first finding's effect shows in `Routes.ListCodes` and
`Storage.MemStorage.SearchCodeSnippets`. The corrected record,
`Schema.NewSnippet`, is defined beside it, and its flags are proved in
`Schema.NewSnippetFlags`.
