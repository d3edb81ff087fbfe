# matsmartare scraper core, modelled in Dafny

matsmartare scrapes the product listings of a discount food shop, one listing
page per category, and keeps the items in SQLite. This project models the data
transformations at its core and proves what they guarantee:

- **parseItem**: a listing element becomes an item.
  - The image url is `"http:"` plus the `src` with every `?itok=…` removed.
  - The name is trimmed.
  - The price is the first run of digits. When there is none, the lookup throws.
  - The item has id -1, the scraping category as its only category, and both timestamps equal to the run's time.
- **resolveCategories**: the new scraper keeps only the category rows with id 4 or 0. The legacy server keeps every row.
- **translateToMap**: items are keyed by url, and the last item with a url wins.
- **fetchItemsFromDb**: stored rows become items.
  - The new scraper splits the `categories` column on `","`.
  - The legacy server also reads each piece back with `Number`, and can return a list or a url-keyed map.
- **flatMapCombineCategories**: merges the per-category item lists into one item per url.
  - The first item seen with a url is kept.
  - Each later item with the same url appends its first category to the kept item's `categories`, in place.

Modules:

- `Wrappers`: Option and Result.
- `JsStrings`: the JavaScript string operations the code relies on.
  - The trim regex `/^\s+|\s+$/g`.
  - `match(/\d+/)`.
  - The replacement of `/\?itok=.*/g`.
  - `split(",")` and `join(",")`.
  - `Number` on digit strings.
- `Keyed`: last-occurrence indices.
- `Models`: the category record.
- `CombineSpec`: a value-level definition of the merged category lists (`Combined`) and its properties.
- `FetchItems`: `src/fetch-items.js`.
  - Items are a class whose `categories` field the merge updates in place.
  - The merge is proved against `CombineSpec` through ghost snapshots of the traversal.
- `LegacyFetchItemsFromDb`: `server_legacy_because_matsmart_updated/src/lib/fetch-items-from-db.js`.

The merge appends with `push`, so a repeated category is kept twice: the
merged categories are a list, not a set (`CombineSpec.RepeatedCategoryKept`).

## Model

| member | source | states |
|---|---|---|
| JsStrings.Trim | src/fetch-items.js:34 | the result is the slice of the text between its leading and trailing whitespace runs, and neither starts nor ends with whitespace |
| JsStrings.TrimUntrimmed | src/fetch-items.js:34 | a name with no surrounding whitespace is left unchanged |
| JsStrings.TrimIdempotent | src/fetch-items.js:34 | trimming twice equals trimming once |
| JsStrings.TrimEmptyIffAllWhitespace | src/fetch-items.js:34 | the trimmed name is empty exactly when the text is all whitespace |
| JsStrings.FirstDigit | src/fetch-items.js:35 | the index of the first digit, or None exactly when the text has no digit |
| JsStrings.DigitRun | src/fetch-items.js:35 | the greedy `\d+` run: all digits and followed by a non-digit or the end |
| JsStrings.MatchDigits | src/fetch-items.js:35 | `match(/\d+/)` is null exactly when there is no digit; otherwise a non-empty all-digit slice of the text that cannot be extended |
| JsStrings.DigitRunEnd | src/fetch-items.js:35 | two maximal digit runs that start together end together |
| JsStrings.MatchDigitsIsLeftmostRun | src/fetch-items.js:35 | the price is a maximal digit run, no maximal run starts before it, and it is the only one starting where it does |
| JsStrings.LineLength | src/fetch-items.js:33 | `.*` stops at the first line terminator |
| JsStrings.StripItok | src/fetch-items.js:33 | the replacement never lengthens the text; what it keeps is stated by `StripItokNoMarker` and `StripItokSingleLine` |
| JsStrings.StripItokNoMarker | src/fetch-items.js:33 | text with no `?itok=` anywhere, on any number of lines, is left unchanged |
| JsStrings.IndexOf | src/fetch-items.js:33 | the index of the first occurrence of a pattern, or None when there is none |
| JsStrings.StripItokSingleLine | src/fetch-items.js:33 | on a single-line `src`, the replacement keeps exactly the part before the first `?itok=` |
| JsStrings.Split | src/fetch-items.js:94 | `split(",")` gives at least one piece and no piece holds the separator |
| JsStrings.JoinSplit | src/fetch-items.js:94 | joining the pieces of a split gives the column back |
| JsStrings.SplitPiece | server_legacy_because_matsmart_updated/src/lib/fetch-items-from-db.js:23 | splitting a separator-free piece followed by the separator peels off that piece |
| JsStrings.SplitJoin | server_legacy_because_matsmart_updated/src/lib/fetch-items-from-db.js:23 | splitting a join of separator-free pieces gives the pieces back |
| JsStrings.NumberOf | server_legacy_because_matsmart_updated/src/lib/fetch-items-from-db.js:23 | `Number` gives an integer exactly on all-digit text |
| JsStrings.Decimal | src/fetch-items.js:148 | the decimal rendering that `join(",")` writes is a non-empty digit string with no leading zero |
| JsStrings.NumberOfDecimal | server_legacy_because_matsmart_updated/src/lib/fetch-items-from-db.js:23 | `Number` reads back the value that the decimal rendering wrote |
| Keyed.LastIndex | src/fetch-items.js:80-82 | the index of the last occurrence of a key |
| Keyed.IsLastAppend | src/fetch-items.js:80-82 | after one more `set`, the new element is the last one for its key and every other key keeps its last element |
| FetchItems.Item.constructor | src/fetch-items.js:9-21 | `newItem` stores each argument in its field |
| FetchItems.ImageUrl | src/fetch-items.js:33 | the image url starts with `http:` and is at most five characters longer than `src` |
| FetchItems.ImageUrlSingleLine | src/fetch-items.js:33 | on a single-line `src`, the image url is `http:` plus the part of `src` before the first `?itok=`, or plus all of `src` when there is none |
| FetchItems.ParseItem | src/fetch-items.js:31-39 | fails exactly when the image or the price digits are missing, and reports the image first; otherwise a fresh item with id -1, categories `[categoryId]`, first seen = last seen = the run's time, the trimmed name, the first digit run as price, and the normalised image url |
| FetchItems.SelectedMembers | src/fetch-items.js:41-51 | a category is resolved exactly when it comes from a row with id 4 or 0, copying that row's id, url and title |
| FetchItems.SelectedAppend | src/fetch-items.js:41-51 | selection keeps row order: it distributes over concatenation |
| FetchItems.ResolveCategories | src/fetch-items.js:41-51 | the loop returns exactly the selection of the rows, and every returned category has id 4 or 0 |
| FetchItems.TranslateToMap | src/fetch-items.js:78-84 | the keys are exactly the input urls, and each maps to the last item with that url (the object itself) |
| FetchItems.ItemsFromRows | src/fetch-items.js:92-96 | one fresh item per row, in row order, holding the row's fields with the categories column split on `","` |
| FetchItems.FetchItemsFromDb | src/fetch-items.js:86-100 | the keys are exactly the urls of the rows, and each maps to a fresh item read from the last row with that url |
| FetchItems.FlattenPrefix | src/fetch-items.js:105-106 | walking the lists one prefix longer appends the next list to the traversal |
| FetchItems.FlattenAt | src/fetch-items.js:105-106 | the items of list `i` sit in the traversal right after the items of the lists before it |
| FetchItems.FirstOccurrence | src/fetch-items.js:107-109 | every item has a first item with its url at or before it |
| FetchItems.MergeStart | src/fetch-items.js:103 | before the first item the map is empty and every item has its own categories |
| FetchItems.StoredIsFirst | src/fetch-items.js:107-109 | the item stored for a url is the first traversed item with that url |
| FetchItems.MergeNewUrl | src/fetch-items.js:108-109 | an item with an unseen url is stored as it is, and the merged state moves one item on |
| FetchItems.NewUrlEntry | src/fetch-items.js:108-109 | the merged entry of an unseen url is that item's categories |
| FetchItems.NewUrlFirsts | src/fetch-items.js:108-109 | storing an item with an unseen url keeps every first occurrence stored |
| FetchItems.NewUrlCategories | src/fetch-items.js:108-109 | storing an item with an unseen url leaves every item's categories as the merged state requires |
| FetchItems.MergeKnownUrl | src/fetch-items.js:110-111 | an item whose url is already stored appends its first category to the stored item only, and the merged state moves one item on |
| FetchItems.AppendedMerged | src/fetch-items.js:111 | after that append, the categories of every item agree with the merge specification |
| FetchItems.CombineItem | src/fetch-items.js:106-112 | one step of the inner loop, including the in-place `push`, moves the merged state one item on |
| FetchItems.CombineCategory | src/fetch-items.js:106-112 | the inner loop merges one category's items, in order |
| FetchItems.CombineCategories | src/fetch-items.js:105-113 | the outer loop merges every item of the traversal |
| FetchItems.TraversalKeys | src/fetch-items.js:107-109 | after the whole traversal, the keys are exactly the traversed urls |
| FetchItems.MergeComplete | src/fetch-items.js:102-117 | after the whole traversal: one key per distinct url; each key maps to the first item with it, whose categories are that url's merged list; every other item keeps its own categories |
| FetchItems.FlatMapCombineCategories | src/fetch-items.js:102-117 | the merge over all category lists has that outcome, measured against the items' categories before the call; only traversed items are modified |
| CombineSpec.Combined | src/fetch-items.js:102-117 | the merged category list of every url is non-empty |
| CombineSpec.CombinedKeys | src/fetch-items.js:107-109 | a url is a key exactly when some walked item carries it |
| CombineSpec.CombinedAt | src/fetch-items.js:111 | a url's merged list is the first item's categories followed by the first category of each later item with that url, in traversal order |
| CombineSpec.TotalEntriesAt | src/fetch-items.js:111 | the category count of a map can be taken apart at any url |
| CombineSpec.CombinedTotal | src/fetch-items.js:38 | when every item has exactly one category, as parsed items do, the merged lists hold as many entries as there were items |
| CombineSpec.RepeatedCategoryKept | src/fetch-items.js:111 | a url seen twice under the same category gets that category twice (list, not set) |
| LegacyFetchItemsFromDb.CategoryNumbers | server_legacy_because_matsmart_updated/src/lib/fetch-items-from-db.js:23 | one number per piece of the column split on `","`, each piece read by `Number` |
| LegacyFetchItemsFromDb.CategoryNumbersOfJoin | server_legacy_because_matsmart_updated/src/lib/fetch-items-from-db.js:23 | reading back a non-empty comma-joined list of ids gives exactly those ids, in order |
| LegacyFetchItemsFromDb.EmptyCategoriesReadAsZero | server_legacy_because_matsmart_updated/src/lib/fetch-items-from-db.js:23 | an empty list of ids, stored as `""`, reads back as the single id 0 |
| LegacyFetchItemsFromDb.TranslateToMap | server_legacy_because_matsmart_updated/src/lib/fetch-items-from-db.js:7-13 | the keys are exactly the input urls, and each maps to the last item with that url |
| LegacyFetchItemsFromDb.ItemsFromRows | server_legacy_because_matsmart_updated/src/lib/fetch-items-from-db.js:21-25 | one item per row, in row order, holding the row's fields with the categories read back as numbers |
| LegacyFetchItemsFromDb.FetchItemsFromDb | server_legacy_because_matsmart_updated/src/lib/fetch-items-from-db.js:21-29 | a map exactly when `asMap` is set. The list holds one item per row in order. The map's keys are exactly the rows' urls, each mapped to the item read from the last row with that url |
| LegacyFetchItemsFromDb.ResolveCategories | server_legacy_because_matsmart_updated/src/lib/fetch-items-from-db.js:34-40 | one category per row, in row order, copying id and url and taking the title from the row's name |

## Left out

- HTTP retrieval (`request`) and HTML querying (`cheerio`) are foreign libraries. `ParseItem` takes a `Fragment` with the strings the queries return.
  - A missing `img.zoom` and a missing `src` attribute are both reported as `NoImage`.
- FetchItems.ParseItem: the link's `href` is a string, so an `<a>` without `href` is excluded by the type. In JavaScript that element does not throw: its item gets the url `undefined`, and the merge would put every such item under that one key.
- FetchItems.ItemsFromRows: the `categories` column is a string, so a NULL column is excluded by the type. In JavaScript, `.split(",")` on NULL throws a TypeError.
- LegacyFetchItemsFromDb.ItemsFromRows: the same holds for the legacy row loop. A NULL `categories` column throws at `.split(",")`, and the type excludes it.
- The discount regex `/^[^\(]+..|..[^\)]+$/g` is not modelled. The discount text is taken as already processed.
- All SQLite access, the `SELECT` statements (including the legacy filter on the latest `last_seen`), `BEGIN`/`COMMIT` and prepared statements are I/O. The methods take the rows the query returned.
- FetchItemsFromDb: the query-error path (`reject(err)`) is not modelled. This applies to both files. The promise is settled by the rejection. The code then goes on to `rows.forEach` without a `return`, which is not modelled either.
- `mergeProcessItems` and reconciliation are not modelled. Its loop body is commented out and it resolves with a TODO string.
- The Promise fan-out (`promisesForFetchingItems`, `fetchItemsFromMatsmart`) is asynchronous plumbing. `TIMESTAMP_NOW` is the parameter `now` of `ParseItem`.
- FlatMapCombineCategories: the result is the url-keyed map. The order in which the `hashmap` library's `values()` lists the items is not claimed.
- FlatMapCombineCategories: requires every input item to have at least one category. Every parsed item has exactly one. With an empty array, JavaScript would push `undefined`.
- NumberOf: `Number` is modelled only on all-digit text, where the empty text reads as 0. Any other text (NaN, fractions, signs, padding) is left as an uninterpreted value.
- `server_legacy_because_matsmart_updated/src/lib/models.js` is not part of this model.
  - The legacy item is assumed to have one field per argument of `newItem`, including `best_before`.
  - The legacy category is assumed to be `(id, url, title)`, as in `src/fetch-items.js`.
- Strings are sequences of Unicode characters, not UTF-16 code units. This matters only for characters outside the Basic Multilingual Plane, which none of the patterns involve.
- Integers are unbounded. The ids and timestamps stay far below the range where JavaScript numbers lose precision.
