# ng-textcomplete, modelled in Dafny

ng-textcomplete is an AngularJS port of jQuery-textcomplete: it watches a
textarea, finds a trigger (such as `@al`) in the text before the caret with
the patterns of its *strategies*, calls the matching strategy's search
function, shows the answers in a dropdown list, and on selection rewrites the
text around the caret with the strategy's replacement.

This project models the engine behind that behaviour:

- `Utils` (`utils.dfy`): `include`, the lock built by `lock(func)` as a class
  `Lock`, and the cache built by `memoize(func)` as a class `Memo` whose ghost
  history says what each cache entry holds.
- `Js` (`js.dfy`): the JavaScript values and built-ins the engine relies on:
  terms that may be `undefined` or `null`, the object-key conversion of a term,
  `substring` and `slice(0, end)` with negative ends.
- `Strategies` (`strategies.dfy`): strategies before and after their defaults
  are filled in. A regular expression is a function from a text to its first
  match; `ValidMatcher` states what any real pattern guarantees about a match.
- `ListViews` (`listview.dfy`): the dropdown as a class `ListView` whose
  methods are specified by pure functions over `ListState`, and lemmas about
  those functions: `render` appends exactly the new values of a batch in
  first-seen order, keeps the list duplicate-free, respects the cap within
  one batch (and not across batches); keyboard navigation wraps and keeps the
  active index on an entry.
- `Completers` (`completer.dfy`): `extractSearchQuery`, the locked `search`
  with its callback (`searchCallbackFactory`), the deferred clear of
  `renderList`, `onKeyup`, `onSelect` and the key and click handlers, as a
  class `Completer`. The asynchronous search is split in two: `Search`
  starts it and leaves its callback outstanding (`inFlight`), and `Deliver`
  is that callback being invoked with a batch and its `keep` flag. The
  invariant `Completer.Valid` ties the lock to the outstanding callback,
  keeps a shown list non-empty with its active index on an entry, and keeps
  the list's entries free of duplicates.
- `TextcompleteFactory` (`textcomplete.dfy`): the defaults of each strategy
  (`index` 2, `maxCount` 10, identity template, memoization when `cache` is
  set) and the construction of a completer.
- `Scenarios` (`scenarios.dfy`): two complete runs on a concrete field,
  `hello @al` completed to `hello @albert `, and a keystroke dropped while a
  search holds the lock.

The textarea is modelled by its `value` and its caret (`selectionEnd`); the
values broadcast through `$rootScope` are collected in `Completer.emitted`.

## Model

| member | source | states |
|---|---|---|
| Utils.Include | ng-textcomplete.js:86-93 | the result is true exactly when the value occurs in the array (strict equality) |
| Utils.Lock.constructor | ng-textcomplete.js:12-13 | a new lock is not held |
| Utils.Lock.Acquire | ng-textcomplete.js:17-20 | the wrapped body may run exactly when the lock was free; afterwards the lock is held, and a refused call changes nothing |
| Utils.Lock.Free | ng-textcomplete.js:14-16 | `free` releases the lock |
| Utils.CollectedSnoc | ng-textcomplete.js:75-76 | recording a batch under a term extends that term's entry by the batch and leaves every other entry as it was |
| Utils.Memo.constructor | ng-textcomplete.js:70 | the cache starts empty and consistent with an empty history |
| Utils.Memo.Lookup | ng-textcomplete.js:72-73 | a term is a hit exactly when some batch, even an empty one, was recorded for it, and the hit is every batch recorded for it, concatenated in delivery order |
| Utils.Memo.Record | ng-textcomplete.js:75-77 | the entry of the term becomes its old entry (or nothing) followed by the batch; the cache stays consistent with the history |
| Js.PropertyKey | ng-textcomplete.js:72-76 | a string term indexes the cache under itself, `undefined` and `null` under the names "undefined" and "null" |
| Js.PropertyKeyCollisions | ng-textcomplete.js:72-76 | distinct string terms use distinct cache entries; two terms share an entry exactly when they are equal or are `undefined` and "undefined", or `null` and "null" |
| Js.Head | ng-textcomplete.js:265-277 | the text before the caret is a prefix of the value, as long as the caret or the whole value |
| Js.Tail | ng-textcomplete.js:212 | the text after the caret completes the text before it to the whole value |
| Js.SliceTo | ng-textcomplete.js:174 | `slice(0, maxCount)` yields a prefix of the batch, of length `maxCount` clamped, counting from the back when `maxCount` is negative |
| Completers.Capture | ng-textcomplete.js:291 | the term is a string exactly when the group named by `index` exists and took part in the match, and then it is that group's text; otherwise `undefined`, never `null` |
| Completers.FirstMatchFrom | ng-textcomplete.js:286-294 | from a given strategy on, the query is that of the first strategy whose pattern matches, and there is none exactly when no later strategy matches |
| Completers.ExtractSearchQuery | ng-textcomplete.js:281-295 | the query names the first matching strategy and the term of its capture group; no query exactly when no strategy matches |
| Completers.RewriteLayout | ng-textcomplete.js:209-230 | after selection: the text before the match is kept, the replacement stands where the match was, the text between match and caret follows, the caret lands after it, and the insertion of a pair and then the old text after the caret follow the caret; without a match only the insertion changes the text |
| Completers.ShowAndRender | ng-textcomplete.js:169-176 | an empty batch changes nothing; a non-empty one, cut to the current strategy's `maxCount`, has its new values appended to the entries of a shown list, or to no entries under the current strategy's cap if the list was hidden (index 0); the list is shown exactly when it ends up with entries, and otherwise holds no entries array |
| Completers.RenderedList | ng-textcomplete.js:164-181 | `renderList` with line 178 testing `shown` first: after a pending clear an empty answer leaves the list hidden (an empty result hides a shown list) and every entry comes from the batch; without one, an empty answer leaves a populated list alone; a non-empty answer, cut to `maxCount`, appends its new values to the kept entries (none if a clear was pending or the list hidden), and the list is shown exactly when it has entries |
| Completers.RenderedListKeepsPopulated | ng-textcomplete.js:164-181 | a list that was hidden or shown with an active entry is, after `renderList`, again hidden or shown with entries and an active index on one of them; entries without duplicates stay without duplicates |
| Completers.AfterCallback | ng-textcomplete.js:182-191 | a batch with `keep` keeps the lock and leaves no clear pending; the final batch frees the lock and defers a clear to the next render; the list is rendered, stays well-formed and stays free of duplicates |
| Completers.RenderedListAsWritten | ng-textcomplete.js:164-181 | as written, `renderList` throws exactly for an empty answer with no clear pending to a list without an entries array, or for a non-empty answer that `slice` cuts to nothing when there are no entries to keep |
| Completers.AfterCallbackAsWritten | ng-textcomplete.js:182-191 | as written, a callback whose `renderList` throws leaves the lock as it was, whatever `keep` says, and no clear pending; one whose `renderList` returns does what the corrected callback does |
| Completers.AsWrittenAgreesUnlessThrown | ng-textcomplete.js:178 | as written, `renderList` throws exactly when the list has no entries array after rendering, and otherwise does what the corrected version does |
| Completers.EmptyFirstResultWedgesLock | ng-textcomplete.js:178-190 | as written, an empty first answer throws before `free()` and leaves the lock held; corrected, it frees the lock |
| Completers.NegativeCapThrows | ng-textcomplete.js:174-179 | as written, a negative `maxCount` that slices a batch to nothing makes `render` deactivate and line 178 throw; corrected, the lock is freed |
| Completers.Completer.constructor | ng-textcomplete.js:133-155 | a new completer holds the given strategies and field, has searched nothing, shows no list, holds no lock and an empty cache |
| Completers.Completer.RenderList | ng-textcomplete.js:164-181 | the list becomes the corrected `renderList` of the batch under the current strategy's cap, and no clear is pending any more |
| Completers.Completer.Deliver | ng-textcomplete.js:182-191 | a memoizing callback first records its batch under its term; the callback renders the batch; only the final batch frees the lock, ends the outstanding search and defers a clear; the invariant is kept |
| Completers.Completer.Search | ng-textcomplete.js:296-301 | a call while a search holds the lock changes nothing; otherwise the query's strategy becomes current; a memoized strategy with a cache entry for the term answers at once with the whole entry as the final batch, freeing the lock, and any other search leaves its callback outstanding, holding the lock |
| Completers.Completer.OnKeyup | ng-textcomplete.js:196-208 | no match: the term becomes `null` and the list is hidden; the same term: nothing happens; a new term is stored and searched, unless the lock is held, in which case only the term changes |
| Completers.Completer.OnSelect | ng-textcomplete.js:209-231 | the field is rewritten as `RewriteLayout` describes, the new value is broadcast, and the caret moves to the end of the rewritten prefix |
| Completers.Completer.OnKeydown | ng-textcomplete.js:384-409 | the list changes as `AfterKeydown` says, and ENTER or TAB on a shown list commits the active entry through `onSelect` |
| Completers.Completer.OnOutsideClick | ng-textcomplete.js:150-154 | a click outside the list hides it |
| Completers.Completer.OnClick | ng-textcomplete.js:410-417 | clicking entry `i` commits that entry through `onSelect` and deactivates the list: hidden, with its entries and index dropped and its cap kept |
| ListViews.ListView.constructor | ng-textcomplete.js:318-326 | a new list is hidden with index 0 and no entries array yet |
| ListViews.ListView.Clear | ng-textcomplete.js:347-352 | the entries become empty and the index 0 |
| ListViews.ListView.Activate | ng-textcomplete.js:361-367 | the list is shown |
| ListViews.ListView.Deactivate | ng-textcomplete.js:368-375 | a shown list is hidden and loses its entries and index; a hidden list is left alone |
| ListViews.ListView.Render | ng-textcomplete.js:327-346 | the entries become `Appended` of the batch, and an empty result hides the list |
| ListViews.ListView.Select | ng-textcomplete.js:380-383 | entry `i` is handed to the completer and the list is hidden |
| ListViews.ListView.OnKeydown | ng-textcomplete.js:384-409 | the list and the committed entry are those of `AfterKeydown` |
| ListViews.AppendedIsCappedNewItems | ng-textcomplete.js:330-339 | `render` appends the values of the batch that the list lacks, once each, in first-seen order, cut at `maxCount` if the list was below it; never cut if it was not |
| ListViews.NewItemsExactlyOnce | ng-textcomplete.js:332 | the appended values are exactly the batch's values missing from the list, each once |
| ListViews.AppendedKeepsDistinctPrefix | ng-textcomplete.js:330-339 | `render` keeps the old entries as a prefix, adds only values from the batch, and keeps the list free of duplicates |
| ListViews.AppendedEmptyOnlyFromEmpty | ng-textcomplete.js:330-341 | `render` leaves the entries empty exactly when they were empty and the batch was empty too |
| ListViews.AppendedCap | ng-textcomplete.js:338 | a list below `maxCount` ends at most at `maxCount`, and unless the cap stopped it every value of the batch is in the list |
| ListViews.CapExceededAcrossBatches | ng-textcomplete.js:338 | with `maxCount` 2, a second batch is appended in full to a list already holding 2 entries |
| ListViews.UpDownWrap | ng-textcomplete.js:389-404 | UP and DOWN keep the index on an entry, otherwise step back or on by one, wrap at both ends, and undo each other |
| ListViews.KeydownKeepsPopulated | ng-textcomplete.js:384-409 | keys are ignored while hidden; ESC hides; a commit happens exactly on ENTER or TAB while shown, and commits the active entry and hides; the active index stays on an entry and the entries stay free of duplicates |
| ListViews.DeactivatedHides | ng-textcomplete.js:368-375 | `deactivate` hides and drops the entries of a shown list, leaves a hidden one alone, keeps entries duplicate-free, and is idempotent |
| ListViews.ClearedEmpties | ng-textcomplete.js:347-352 | `clear` empties the entries (trivially duplicate-free) and resets the index without touching visibility or the cap |
| TextcompleteFactory.Normalize | ng-textcomplete.js:444-453 | a missing template becomes the identity, a missing index becomes 2, a missing or zero `maxCount` becomes 10, `cache` memoizes the search, and the pattern and replacement are kept |
| TextcompleteFactory.NormalizeStrategies | ng-textcomplete.js:441-455 | every strategy is normalized, in order |
| TextcompleteFactory.Textcomplete | ng-textcomplete.js:439-457 | the completer is built over the normalized strategies, in its initial state |
| Scenarios.CompleteMention | ng-textcomplete.js:196-231 | typing `hello @al`, answering `alice`, `albert`, pressing DOWN and ENTER yields `hello @albert ` with the caret at 14 and the list hidden |
| Scenarios.DroppedKeystroke | ng-textcomplete.js:199-203 | a term typed while a search holds the lock is not searched, and after the search answers the unchanged text raises no new search |

## Left out

- Caret pixel position (`getCaretPosition`, `setPosition`), `getStyles`, `_prepareWrapper`, the wrapper and list CSS, focus handling: layout and DOM work with no bearing on the state modelled.
- `bind` and `toArray`: calling-convention plumbing; the model calls its methods directly.
- The HTML `render` paints (`template` output, `data-index` attributes, `activateIndexedItem`, `getActiveItem`): the active entry is taken to be `data[index]`, which is what the `data-index` of the `index`-th item holds, since `clear` empties the HTML and the entries together. `Template` is kept in the data model but never applied.
- The branch of `getTextFromHeadToCaret` for browsers without `selectionEnd`: the caret is always a number here.
- The regular expression engine: a pattern is any function to its first match, and patterns with the global flag are not modelled.
- Completers.ReplaceFirst: inserts the replacement literally; `$&`, `$1` and similar patterns in a replacement string are not expanded as `String.prototype.replace` would.
- The iteration order of `for…in` over the strategies: they are a sequence, iterated in index order.
- Cache keys that a plain object inherits (`constructor`, `toString`, …): the source treats them as hits; the model's cache starts empty.
- The user's search function: `Completers.Completer.Deliver` stands for each invocation of its callback. Calls of a callback after its final batch, and calls of callbacks of searches already superseded, are not modelled.
- `$rootScope.$broadcast` and `$apply`: modelled as appending the new value to `emitted`; watchers are outside the model.
- One completer is modelled, with a lock of its own. In the source, `search` is wrapped by `utils.lock` once, on `Completer.prototype`, so a single lock is shared by every completer on the page: a search outstanding in one field drops the searches of every other field, and the lock left held by the finding below blocks every field. The model does not capture that sharing.
- `Textcomplete` rewrites the caller's strategy objects in place; the model builds new strategy values. A strategies object reused for a second field would have its search memoized twice and share its cache with the first field; the model does not capture this aliasing.
- Positions and lengths (the caret, `substring`, `pre.length`) count characters, that is Unicode scalar values; JavaScript counts UTF-16 code units, so caret numbers differ from the source once a character outside the Basic Multilingual Plane, such as an emoji, precedes the caret.
- Exceptions thrown by the caller's `replace`, `template` and `search` functions are not modelled: those functions are total here. This is why `select` may hide the list before `onSelect` rewrites the field, although the source calls `onSelect` first; the order would show only if `replace` threw, leaving the list shown in the source.
- JavaScript numbers are doubles: `NaN` or fractional `index` and `maxCount`, and `NaN` values in `include`, are not modelled; integers are unbounded.
- `listView.strategy`: only the `maxCount` that `render` reads is kept on the list.
- ListViews.ListView.Render: requires the entries array to exist; the source throws a TypeError in `include` otherwise, which the completer never lets happen.
- ListViews.ListView.OnKeydown: requires a shown list to have entries and an active index on one of them, as `Completer.Valid` guarantees; on a shown empty list the source would move the index to -1.
- ListViews.ListView.Select: requires `i` to designate an entry; the source would hand `undefined` to `onSelect` otherwise.
- Completers.Completer.OnClick: requires a shown list and a click on one of its entries, the only items there are to click.
- Completers.Completer.RenderList: requires a current strategy, which every search sets before its callback can run.
- Completers.Completer.Deliver: requires an outstanding search; see the callback line above.

## Findings

| source | as written | input that shows it | evidently intended | confidence | as-written member | corrected member |
|---|---|---|---|---|---|---|
| ng-textcomplete.js:178 | `renderList` reads `listView.data.length` before it tests `shown`, but `data` is `undefined` until the first `clear` and `null` after a `deactivate`; the TypeError escapes the callback before `free()` (line 188), so the lock, which every completer shares, stays held and every later search in any field is dropped | the first search of a new completer answering `[]` as its final batch; or a negative `maxCount` that slices a non-empty first batch to nothing | test `shown` first, so that the final callback always reaches `free()` | not executed | Completers.AfterCallbackAsWritten, Completers.EmptyFirstResultWedgesLock | Completers.AfterCallback |
