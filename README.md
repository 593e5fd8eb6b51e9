# A Dafny model of a memory journal and its slideshow

This project models a browser journal of "memories": entries with a title, a date, a
description, optional tags and an optional embedded image, kept as one JSON
array in `localStorage`. Two pages work on that collection:

- the editor (`script.js`) validates the form, parses tags, creates, edits,
  deletes and favourites entries, filters the list by a search text and a
  favourites switch, and imports a JSON file by replacing or prepending;
- the slideshow (`relive.js`) walks through the entries in a display order
  (storage order or a Fisher–Yates shuffle), with a cursor that wraps around
  in either direction, an autoplay timer, loop and caption flags, thumbnail
  navigation and a download button.

The model keeps the pages' state and drops the browser around it.

| file | module | what it holds |
|---|---|---|
| `wrappers.dfy` | `Wrappers` | `Option`, standing for `null`/`undefined` and for nothing stored |
| `text.dfy` | `Text` | `trim`, ASCII `toLowerCase`, `includes`, `split`, `join`, `replace(/\s+/g, '_')` |
| `seqs.dfy` | `Seqs` | `filter`, `indexOf`, order-preserving subsequences |
| `entries.dfy` | `Entries` | the `Entry` record, `getMemories`, `findIndex` by id |
| `data_url.dfy` | `DataUrl` | `isValidImageDataUrl` and the exact set of strings it accepts |
| `tags.dfy` | `Tags` | tag parsing and its round trip through the edit form |
| `form.dfy` | `Form` | `validateForm` |
| `collection.dfy` | `Collection` | edit, favourite toggle, delete and import as functions of the collection |
| `search.dfy` | `Search` | the list `renderMemories` draws |
| `editor.dfy` | `Editor` | class `Journal`: the storage slot, the editing state, the handlers |
| `relive.dfy` | `Relive` | class `Slideshow`: the playback controller, `shuffleArray`, the download |

How the browser is represented:

- The `localStorage` slot is the field `Journal.storage : Option<seq<Entry>>`.
  `None` stands for a missing key or JSON that does not parse; `getMemories`
  reads it as the empty collection. Each handler assigns `Some(..)` exactly
  where the page calls `setItem`. Deleting writes the filtered collection even
  when the id is absent. Editing or toggling an absent id writes nothing.
- `confirm` answers are `bool` parameters. The outcome of `JSON.parse` on an
  import is a `Payload` parameter. The image file's data URL is an
  `Option<string>` parameter. `Date.now()` and `new Date()` values are string
  parameters. The duration input is an `Option<int>`, where `None` means
  `parseInt` gave NaN.
- `showError`/`clearError` become the `FormErrors` value `ValidateForm` returns.
- The autoplay timer is `Slideshow.timer : Option<int>`: the interval it was
  set with, or `None` when there is no timer.
- The random pick in `shuffleArray` is an arbitrary `j` in `0 .. i`.
- JavaScript's `%` is written out as `JsRem` (the remainder has the sign of
  the dividend). `CursorMove` proves that on every cursor the page can reach,
  it agrees with Dafny's Euclidean `%`. The one negative dividend,
  `-1 % 1`, gives `-0` in JavaScript. That equals `0` and indexes the same
  array cell.

The `Slideshow` methods that need it require, and ensure again, the invariant `Valid()`:
- the display order is a permutation of the entry indices (`OrderValid()`);
- the cursor is in `-1 .. n-1`;
- the direction is `1` or `-1`;
- a timer exists only while `playing` is set.

`BuildOrder` only ensures `OrderValid()`, and `Init` completes `Valid()` after calling
it. `ToggleLoop` and `ToggleCaptions` change a flag that `Valid()` does not read.

Behaviours of the code that the model keeps as written:

- Pressing start with no entries still installs a timer and sets `playing`.
  `nextSlide` then does nothing, so there is no "idle" state that refuses to
  play (`Slideshow.Start`).
- `loopMode` is tracked but never read. Wraparound is unconditional
  (`NextSlide` may only change `current`; see `WraparoundScenario`).
- The title message says "less than 100 characters", but `validateForm` accepts
  exactly 100 (`Form.TitleBoundary`).

## Model

| member | source | states |
|---|---|---|
| `Text.TrimStart` | script.js:60 | removes exactly the leading whitespace: the result is a suffix of the input, everything cut off is whitespace and the result does not start with whitespace |
| `Text.LeadingEnd` | script.js:60 | the scan for the end of the leading whitespace: everything it passes is whitespace and it stops at the end or at a non-whitespace character |
| `Text.TrailingEnd` | script.js:60 | the backward scan for the start of the trailing whitespace, never moving below the given lower bound: everything it passes is whitespace and it stops at the bound or after a non-whitespace character |
| `Text.Trim` | script.js:60 | `trim()`: the result neither starts nor ends with whitespace, and an already trimmed string is unchanged. It is the slice of the input that starts where the leading whitespace ends, and everything in front of and behind that slice is whitespace |
| `Text.LeadingRunEnd` | script.js:60 | the leading whitespace of `w + b`, with `w` all whitespace and `b` not starting with whitespace, ends exactly after `w` |
| `Text.TrimAfterSpaces` | script.js:60 | trimming whitespace followed by an already trimmed string gives that string |
| `Text.Lower` | script.js:195 | `toLowerCase()` keeps the length and leaves no capital letter. Every character that is not a capital stays as it is, and each capital becomes the small letter at the same place in the alphabet |
| `Text.Contains` | script.js:201 | `includes`: true iff the query occurs at some position of the text |
| `Text.MissingChar` | script.js:201 | a query holding a character the text lacks is not contained in it |
| `Text.ContainsWithin` | script.js:201 | a string contained in a piece is contained in any text around that piece |
| `Text.JoinContains` | script.js:200 | `join(d)`: every part can be found in the joined string |
| `Text.Split` | script.js:64 | `split(',')` yields at least one piece and no piece contains the separator |
| `Text.CollapseSpaces` | relive.js:149 | `replace(/\s+/g, '_')` leaves no whitespace, and changes nothing in a string without whitespace |
| `Text.TrimStartRun` | relive.js:149 | a leading run of whitespace in front of a string that does not start with whitespace is exactly what `TrimStart` removes |
| `Text.LeadingRun` | relive.js:149 | a leading run of whitespace becomes a single underscore |
| `Text.CollapseRun` | relive.js:149 | the run law: for `a` without whitespace, a non-empty all-whitespace `w`, and `b` that is empty or does not start with whitespace, `a + w + b` becomes `a + "_"` followed by the replacement of `b` |
| `Seqs.IndexOf` | relive.js:78 | `indexOf`: -1 iff the value is absent; otherwise the position of its first occurrence |
| `Form.ValidateForm` | script.js:87-105 | valid iff the trimmed title has 1..100 characters, the date is non-empty and the trimmed description has 1..1000 characters; valid iff no field has a message; every failing field gets its own message (missing vs. too long), with no short-circuit |
| `Form.TitleBoundary` | script.js:94-95 | a trimmed 100-character title is accepted and a 101-character one rejected |
| `Tags.ParseTags` | script.js:63-64 | every returned tag is non-empty, trimmed and comma-free; blank input gives no tags |
| `Tags.TagsOf` | script.js:64 | the pieces between commas, trimmed, with the empty ones dropped, are all well-formed tags |
| `Tags.TagsFieldContains` | script.js:253 | every tag can be found in the field `beginEdit` fills |
| `Tags.FieldTrimmed` | script.js:253 | the field filled from well-formed tags is non-empty and trimmed |
| `Tags.FieldSplits` | script.js:253 | splitting that field at its commas gives the tags, each after the first with one space in front |
| `Tags.TagsRoundTrip` | script.js:253 | parsing the `join(', ')` of well-formed tags gives back exactly those tags |
| `Tags.ParseTagsIdempotent` | script.js:60-64 | re-parsing the field `beginEdit` fills from parsed tags yields the same tags, so an unchanged tag field survives an edit |
| `Entries.Load` | script.js:157-159 | `getMemories`: a missing or unparsable store reads as no entries, otherwise the stored entries (relive.js:37-39 is the same function) |
| `Entries.IndexOfId` | script.js:136 | `findIndex`: -1 iff no entry has the id; otherwise the entry there has the id and no earlier one does |
| `Entries.IndexOfIdSameIds` | script.js:136 | lookup by id depends only on the sequence of ids |
| `Collection.ApplyEdit` | script.js:138-142 | the edited entry keeps its id, favourite flag and creation time and takes the title, date, description, image and tags of the edit |
| `Collection.Updated` | script.js:136-142 | an absent id leaves the collection unchanged; otherwise the length and all ids are kept, only the first match changes, and in it title/date/description/image/tags take the new values while id, favorite and createdAt stay |
| `Collection.UpdateIdempotent` | script.js:136-142 | applying the same edit twice equals applying it once |
| `Collection.Toggled` | script.js:173-174 | an absent id leaves the collection unchanged; otherwise only the first match changes, and only its favorite flag flips |
| `Collection.ToggleTwice` | script.js:173-174 | toggling the same id twice restores the collection |
| `Collection.WithoutId` | script.js:165 | no entry with the id remains; the result is an order-preserving subsequence; every entry with another id keeps its multiplicity |
| `Collection.DeleteAbsent` | script.js:165 | deleting an id that is absent leaves the collection as it was |
| `Collection.Imported` | script.js:275-282 | a non-array or unparsable payload is an error; replace stores exactly the imported entries; append stores the imported entries followed by the current ones |
| `Collection.AppendCounts` | script.js:281 | appending performs no de-duplication: the stored list holds each entry as often as the file and the old list together, so an entry in both is stored at least twice |
| `Collection.AppendKeepsDuplicates` | script.js:281 | an example: importing the one entry already stored stores it twice |
| `Seqs.Filter` | script.js:165 | `filter` keeps exactly the elements satisfying the predicate, each with its multiplicity, in their original order |
| `Seqs.SubsequenceTransitive` | script.js:196-202 | a filter of a filter is a subsequence of the original |
| `DataUrl.IsValidImageDataUrl` | script.js:186-190 | accepts only strings longer than the fixed prefix and marker; the exact accepted set is given by the two lemmas below (relive.js:41 is the same function) |
| `DataUrl.AcceptsBuilt` | script.js:188 | every `data:image/<s>;base64,<p>` with `s` in png/jpeg/jpg/gif/webp/svg+xml and `p` a non-empty string over `[A-Za-z0-9+/=]` is accepted |
| `DataUrl.Decompose` | script.js:188 | every accepted string is such a data URL (the converse) |
| `DataUrl.RejectsNonUrls` | script.js:187 | non-strings, the empty string and `not-a-url` are rejected |
| `DataUrl.RejectsUnlistedSubtype` | script.js:188 | a subtype outside the list (`bmp`) is rejected |
| `DataUrl.RejectsEmptyPayload` | script.js:188 | an empty payload is rejected |
| `DataUrl.AcceptsExample` | script.js:188 | a small PNG data URL is accepted |
| `Search.SearchTextContains` | script.js:200 | the title, the description and every tag can be found in an entry's search text |
| `Search.NormalizeQuery` | script.js:195 | the normalised query is trimmed, no longer than the raw text and holds no capital letter |
| `Search.TrimNoCapitals` | script.js:195 | trimming a string without capitals leaves none |
| `Search.Visible` | script.js:193-203 | the list is an order-preserving subsequence of all entries; with favourites-only every listed entry is a favourite; with a non-blank query every listed entry's lower-cased `title description tags` contains it; every entry meeting both conditions is listed as often as it is stored |
| `Search.Favorites` | script.js:197 | the favourites step keeps, in order, exactly the favourite entries when the switch is on, and everything when it is off |
| `Search.Matching` | script.js:198-203 | the query step keeps, in order, exactly the entries whose lower-cased search text contains a non-blank query, and everything for a blank one |
| `Search.BlankQueryShowsAll` | script.js:195-198 | a query of whitespace only, without favourites-only, lists every entry |
| `Search.ParisExample` | script.js:193-203 | favourites-only with "Paris" lists exactly the favourite "Paris trip"; with "Tokyo" nothing |
| `Editor.Truthy` | script.js:249 | `image \|\| null`: the result is absent iff there is no image or it is the empty string; otherwise it is the image itself |
| `Editor.FormOf` | script.js:250-253 | the form shows the entry's title, date and description, and its tag field parses back to the entry's tags when they are well formed |
| `Editor.EditOf` | script.js:60-64 | the submitted title and description are trimmed (and kept as they are when already trimmed), the date and image are passed through, and every tag is well formed |
| `Editor.ResubmitUnchanged` | script.js:246-253 | opening a well-formed entry for editing and saving the unchanged form without a new file writes back the same entry |
| `Editor.Journal.constructor` | script.js:15-17 | nothing is being edited and the favourites filter is off |
| `Editor.Journal.ResetForm` | script.js:148-154 | clears the editing id and the remembered image and changes nothing else |
| `Editor.Journal.SaveMemory` | script.js:124-131 | the stored collection becomes the new entry (favorite false, tags defaulting to none) followed by the old collection; one entry longer; editing state reset |
| `Editor.Journal.UpdateMemory` | script.js:134-146 | an absent id changes nothing at all (not even the editing state); otherwise stores `Collection.Updated` and resets the editing state |
| `Editor.Journal.DeleteMemory` | script.js:162-168 | without confirmation nothing changes; with it the store becomes `Collection.WithoutId` of the loaded collection |
| `Editor.Journal.ToggleFavorite` | script.js:171-177 | an absent id writes nothing; otherwise the store becomes `Collection.Toggled` |
| `Editor.Journal.BeginEdit` | script.js:246-257 | for an absent id nothing changes and no form is filled; otherwise the editing id and the entry's image are remembered, and the form shows the entry with tags joined by `, ` |
| `Editor.Journal.Finish` | script.js:67-73 | while editing: updates the edited entry as `UpdateMemory` does; otherwise prepends a new entry. Either way the form is reset as `resetForm` (script.js:148-154) does: no entry is being edited, no original image is kept, and the favourites filter is left as it was |
| `Editor.Journal.SubmittedImage` | script.js:75-83 | a chosen file wins; editing without a file keeps the original image; a new entry without a file has none |
| `Editor.Journal.Submit` | script.js:55-84 | a rejected form changes nothing and reports errors; an accepted form stores the trimmed fields, the parsed tags and the chosen or original image, as an update while editing or as a new first entry otherwise, and then resets the form as `resetForm` (script.js:148-154) does: no entry is being edited, no original image is kept, and the favourites filter is left as it was |
| `Editor.Journal.Import` | script.js:270-289 | the alert is raised iff the payload is not an array, and then nothing changes; otherwise the store becomes `Collection.Imported` |
| `Editor.Journal.Rendered` | script.js:193-203 | the rendered list is an order-preserving subsequence of the stored entries; it holds exactly the entries the favourites switch and the normalised query admit, each as often as stored |
| `Editor.Journal.ToggleFavoritesFilter` | script.js:293-297 | flips the favourites-only flag and nothing else |
| `Relive.IntervalOf` | relive.js:121 | never 0; the duration when it parses to a non-zero number, and 3500 ms in every other case |
| `Relive.JsRem` | relive.js:113-114 | JavaScript's `%`: the remainder of a non-negative dividend lies in `0 .. n-1`, that of a negative one in `-(n-1) .. 0` |
| `Relive.JsRemOdd` | relive.js:113-114 | negating the dividend negates the remainder |
| `Relive.CursorMove` | relive.js:113-114 | for `-1 <= c < n` and a direction of ±1, JavaScript's `(c + d + n) % n` equals `(c + d) mod n` and lies in `0 .. n-1` |
| `Relive.StepBack` | relive.js:113-114 | from any slide, a step back after a step forward (or the reverse) returns to it |
| `Relive.Identity` | relive.js:62 | the storage order has one index per entry |
| `Relive.PermutationFacts` | relive.js:62 | a display order has one slot per entry, holds only entry indices, and holds every one of them |
| `Relive.EveryThumbnailFound` | relive.js:78 | every entry's index is found in the display order |
| `Relive.ShuffleArray` | relive.js:91 | the array afterwards is a permutation of the array before |
| `Relive.DownloadName` | relive.js:149 | the file name ends in `.png` and has no whitespace; a non-empty title without whitespace is kept as is; an empty title gives `memory.png` |
| `Relive.Slideshow.constructor` | relive.js:25-35 | the initial state: no entries, empty order, cursor -1, no timer, shuffle off, playing, loop on, direction forward, captions on |
| `Relive.Slideshow.NextSlide` | relive.js:113 | an empty order changes nothing; otherwise the cursor becomes `(cursor + direction) mod n`; nothing but the cursor changes, so the loop flag plays no part |
| `Relive.Slideshow.PrevSlide` | relive.js:114 | the same with `-direction` |
| `Relive.Slideshow.Stop` | relive.js:117 | no timer and not playing |
| `Relive.Slideshow.Start` | relive.js:116 | playing with a timer at the given interval, the cursor advanced once |
| `Relive.Slideshow.RestartTimer` | relive.js:118 | a running timer is reset to the current duration; without a timer nothing changes |
| `Relive.Slideshow.Init` | relive.js:166-170 | loads the entries; with none nothing else changes; otherwise the order is the storage order (unless shuffle is on), playback has started and the cursor is on the first step |
| `Relive.Slideshow.NextButton` | relive.js:127 | `NextSlide`, then the timer is restarted if one runs (also the right-arrow key, relive.js:155) |
| `Relive.Slideshow.PrevButton` | relive.js:126 | `PrevSlide`, then the timer is restarted if one runs (also the left-arrow key, relive.js:156) |
| `Relive.Slideshow.SpaceKey` | relive.js:157 | with a timer: stops it and keeps the cursor; without one: starts with the current duration, which also advances the cursor once (`(cursor + direction) mod n`, or nothing for an empty order) |
| `Relive.Slideshow.BuildOrder` | relive.js:62-63 | a new order that is a permutation of the entry indices, and exactly the storage order when shuffle is off |
| `Relive.Slideshow.JumpTo` | relive.js:79 | setting the cursor just before a position and stepping once lands on `(pos - 1 + direction) mod n`, which is that position when the direction is forward |
| `Relive.Slideshow.ClickThumbnail` | relive.js:77-79 | an index not in the order changes nothing; otherwise the cursor lands on `(pos - 1 + direction) mod n`, which is the thumbnail's own slot when the direction is forward, and a running timer is restarted |
| `Relive.Slideshow.ToggleShuffle` | relive.js:125 | flips shuffle; on, the same array is permuted in place; off, the order is the storage order again; either way the cursor is -1 and the order stays a permutation |
| `Relive.Slideshow.ToggleLoop` | relive.js:129 | flips the loop flag and nothing else |
| `Relive.Slideshow.ToggleReverse` | relive.js:130 | negates the direction, which stays ±1, so two presses restore it |
| `Relive.Slideshow.ToggleCaptions` | relive.js:131 | flips the captions flag and nothing else |
| `Relive.Slideshow.DownloadAction` | relive.js:145-151 | "no slide" iff the cursor is negative or the order empty; a save iff the current entry's image passes the data-URL check, and then the saved href is that image and the name is `DownloadName` of the title |
| `Relive.WraparoundScenario` | relive.js:113 | from any valid controller over three entries with the cursor on the first slide and direction forward, four steps visit positions 1, 2, 0, 1; the contract does not mention the loop flag, so this holds with loop on or off |

## Left out

- DOM building and templating: card markup, `createSlide`, `buildThumbnails`, `highlightThumbnail`, `showSlideByOrder`, `escapeHtml`, `formatDate` and `setDefaultDate`. They only render state. `escapeHtml` relies on browser behaviour.
- `localStorage` I/O and JSON (de)serialisation, including export to a file. The store is a value, and an import arrives already parsed. Entries loaded from storage are assumed to have every field. The JavaScript tolerance of a missing `tags` or `favorite` field is not modelled.
- `FileReader`, `Blob`, object URLs and anchor-click downloads. The asynchronous read between choosing an image and saving is not modelled: the data URL is a parameter of `Submit`, and nothing can happen in between. The image input's rejection of non-image files is also not modelled.
- `Math.random` in `shuffleArray` and in `pickEffect`. The shuffle's pick is an arbitrary index. Transition effects and `requestAnimationFrame` are not modelled.
- `setInterval` timing. Timer ticks are `NextSlide` calls. The `Audio` track and volume, the fullscreen API and the `alert` texts are not modelled.
- Relive.Slideshow.DownloadAction: the source's `if (!mem) return;` cannot fire while the order is a permutation of the entry indices, so the model has no such branch.
- Relive.JsRem: the contract gives the sign and the range of the remainder, not that the dividend minus the remainder is a multiple of `n`, which needs nonlinear arithmetic. `CursorMove` ties it to the Euclidean `%` on every cursor the page can reach.
- Text.Lower: only ASCII letters are lower-cased. Full Unicode case mapping, which can change a string's length, is not modelled.
- Strings are sequences of Unicode scalar values, not UTF-16 code units. The 100- and 1000-character limits therefore count astral characters once, where JavaScript counts them twice.
- DataUrl.IsValidImageDataUrl: its own contract only says that accepted values are strings longer than the fixed parts. The exact accepted set is stated by `AcceptsBuilt` and `Decompose` together.
- Relive.Slideshow.Init: requires the controller's initial state, because the page runs it once on load.
