# Bulletin board: post table and post-form script

A model of the two pieces of logic of a small Flask bulletin board.

- **The post table** (`TESTETSET/app.py`). The server keeps its posts as a list of
  records (id, title, content, author, created_at, updated_at). It hands out ids
  (`get_next_id`), creates a post from a validated form by appending it, edits the
  first post with a given id in place, deletes by filtering on the id, and lists
  the posts newest first. Here the list is a `seq<Post>` held by the class
  `Posts.PostTable`. Loading and saving the JSON file is replaced by that field,
  and the clock readings are parameters.
- **The page script** (`TESTETSET/static/js/script.js`). The class `FormScript.Page`
  holds one page view: the optional `#title`, `#content` and `#author` fields
  (`None` when the page has no such element), `localStorage` as a
  `map<string, string>`, and the two character counters. It covers:
  - the submit validator (cancel plus alert text);
  - the title and content counters (text, and the colour above 90% of `maxlength`);
  - the draft on the create page: load at page-ready, save on every input, clear on submit.

  The page-ready handlers run in the constructor, in the order the script
  registers them.

`Text` holds the shared helpers:
- whitespace trimming, defined once over a whitespace set and used with Python's
  `str.strip()` set and JavaScript's `trim()` set;
- decimal rendering of a count, with its inverse.

Behaviour the model makes explicit:
- **A cancelled submit still clears the draft.** The validator's `submit` listener
  calls `preventDefault()`, but that does not stop the draft-clearing listener
  registered later on the same form. So on `/create` a submit that the validator
  cancels still removes all three draft keys (`FormScript.Page.Submit`,
  `FormScript.CancelledSubmitClearsDraft`).
- **The counter is stale after a draft load.** The counters are installed before
  the draft is loaded, and assigning `value` fires no `input` event. So after a
  draft is restored, the title counter still shows the rendered value's length
  until the next keystroke (`FormScript.CounterAfterDraftLoad`).

Two further details of the script, as the code has them:
- `saveDraft` writes only the fields that exist on the page, not all three keys unconditionally;
- the draft keys are removed on every submit event on `/create`, including one
  the validator cancels, not only on a successful submission.

## Model

| member | source | states |
|---|---|---|
| `Text.Trim` | TESTETSET/app.py:55-57 | the input is leading whitespace, then the result, then trailing whitespace; the result is empty exactly when the input is all whitespace, otherwise it starts and ends with a non-whitespace character |
| `Text.PyStrip` | TESTETSET/app.py:55-57 | `strip()` gives the empty string exactly when every character is Python whitespace |
| `Text.JsTrim` | TESTETSET/static/js/script.js:41-53 | `trim()` gives the empty string exactly when every character is ECMAScript whitespace |
| `Text.Decimal` | TESTETSET/static/js/script.js:91 | the numeral of a count is non-empty, all digits, without a leading zero |
| `Text.DecimalRoundTrip` | TESTETSET/static/js/script.js:91 | reading the numeral back gives the count |
| `Text.DecimalInjective` | TESTETSET/static/js/script.js:113 | distinct counts render differently |
| `Posts.Field` | TESTETSET/app.py:55-57 | a form field as the server reads it: a missing field reads as empty, and the stripped value is empty exactly when the raw value is all Python whitespace (the same reading is used again at lines 95-97) |
| `Posts.Acceptable` | TESTETSET/app.py:60 | the server's test that no stripped field is empty; a form lacking any of the three fields is refused (the same test is at line 100) |
| `Posts.MaxId` | TESTETSET/app.py:39 | the result is an id in the table and no id exceeds it |
| `Posts.NextId` | TESTETSET/app.py:35-39 | 1 for an empty table; otherwise one more than an id present and larger than every id |
| `Posts.FirstIndex` | TESTETSET/app.py:88 | none exactly when no post has the id; otherwise the position of the first post with it |
| `Posts.Without` | TESTETSET/app.py:122 | the survivors are exactly the posts whose id differs |
| `Posts.InsertByDate` | TESTETSET/app.py:47 | inserting into a newest-first table keeps it newest first and grows it by one, with either the new post or the old head in front; its contents are the subject of `InsertByDateAdds` |
| `Posts.InsertByDateAdds` | TESTETSET/app.py:47 | inserting adds the post to the table's contents and removes nothing |
| `Posts.NewestFirst` | TESTETSET/app.py:45-47 | the listing is a permutation of the table, ordered by non-increasing created_at |
| `Posts.InsertCreatedAt` | TESTETSET/app.py:47 | inserting a post puts it ahead of the posts with its creation time, and leaves the order of the others |
| `Posts.NewestFirstStable` | TESTETSET/app.py:47 | posts created at the same time keep their table order in the listing |
| `Posts.AcceptableIffFilled` | TESTETSET/app.py:55-60 | a form passes the server's check exactly when title, content and author each hold a non-whitespace character |
| `Posts.ReplaceKeepsUnique` | TESTETSET/app.py:104-107 | rewriting a post in place under its own id keeps ids unique |
| `Posts.AppendNextIdKeepsUnique` | TESTETSET/app.py:66-75 | appending a post with the next id keeps ids unique |
| `Posts.WithoutAppend` | TESTETSET/app.py:122 | deleting distributes over concatenation, so the survivors keep their relative order |
| `Posts.WithoutAbsent` | TESTETSET/app.py:122 | deleting an id no post carries changes nothing |
| `Posts.DeleteIdempotent` | TESTETSET/app.py:121-123 | deleting the same id twice is deleting it once |
| `Posts.WithoutKeepsUnique` | TESTETSET/app.py:122 | deleting keeps ids unique |
| `Posts.DeleteUniqueRemovesOne` | TESTETSET/app.py:122 | with unique ids, deleting a present id removes exactly the post at its position and shortens the table by one |
| `Posts.WithoutAroundOne` | TESTETSET/app.py:122 | deleting the id of the one post between two id-free runs leaves the two runs joined |
| `Posts.DeleteUndoesCreate` | TESTETSET/app.py:64-76 | deleting a just-appended post with a fresh id restores the table |
| `Posts.PostTable.Create` | TESTETSET/app.py:54-79 | rejected, with the table unchanged, exactly when a stripped title, content or author is empty; otherwise exactly one post with the stripped fields, the next id and the two clock readings is appended; ids stay unique |
| `Posts.PostTable.Edit` | TESTETSET/app.py:85-113 | not found when no post has the id, invalid when the form has an empty field, and then nothing changes; otherwise only the first post with the id changes, and only in title, content, author and updated_at; ids stay unique |
| `Posts.PostTable.Delete` | TESTETSET/app.py:119-126 | the new table is the old one without the posts carrying the id; ids stay unique |
| `Posts.PostTable.Index` | TESTETSET/app.py:43-48 | the listing is a newest-first, stable permutation of the stored posts; the table is not changed |
| `FormScript.Key` | TESTETSET/static/js/script.js:164-178 | every field's storage key is one of the three draft keys |
| `FormScript.Blank` | TESTETSET/static/js/script.js:41 | a field can fail only when the page has it, and then fails when it holds only whitespace; the same test is at lines 47 and 53 |
| `FormScript.BlankIsTrimEmpty` | TESTETSET/static/js/script.js:41 | a field is blank exactly when it is present and its `trim()` is the empty string |
| `FormScript.Join` | TESTETSET/static/js/script.js:38-56 | the alert text accumulated by `errorMessage +=`: empty exactly when no field fails, and otherwise it ends in a newline |
| `FormScript.Message` | TESTETSET/static/js/script.js:43-55 | each failure message is non-empty and ends in a newline |
| `FormScript.Failing` | TESTETSET/static/js/script.js:40-56 | a field is listed exactly when it is present and blank, in the fixed order title, author, content |
| `FormScript.JoinAppend` | TESTETSET/static/js/script.js:38-56 | the alert text of two lists of failures is the concatenation of their texts |
| `FormScript.JoinSnoc` | TESTETSET/static/js/script.js:43 | one more failure appends its message to the alert text |
| `FormScript.DecodeMessage` | TESTETSET/static/js/script.js:43-55 | each message is recognised at the start of a text |
| `FormScript.DecodeJoin` | TESTETSET/static/js/script.js:41-60 | the alert text determines the failing fields: decoding it gives them back in order |
| `FormScript.TitleColor` | TESTETSET/static/js/script.js:93-97 | warning colour exactly when length > 0.9 · max (over exact reals), neutral colour otherwise |
| `FormScript.TitleCounterText` | TESTETSET/static/js/script.js:91 | the text "{length} / {max} 文字"; no contract of its own, `TitleCounterTextInjective` states that it names both numbers unambiguously |
| `FormScript.ContentCounterText` | TESTETSET/static/js/script.js:113 | the text "{length} 文字"; no contract of its own, `ContentCounterTextInjective` states that it names the length unambiguously |
| `FormScript.TitleCounter` | TESTETSET/static/js/script.js:91-97 | the title counter's text for the length and maximum, in the warning colour exactly when length > 0.9 · max |
| `FormScript.TitleCounterTextInjective` | TESTETSET/static/js/script.js:89-91 | the title counter text determines the length and maximum it shows |
| `FormScript.ContentCounterTextInjective` | TESTETSET/static/js/script.js:112-113 | the content counter text determines the length it shows |
| `FormScript.Restored` | TESTETSET/static/js/script.js:164-172 | a present field takes the stored value exactly when one exists and is non-empty, otherwise keeps the rendered value; presence never changes |
| `FormScript.Stored` | TESTETSET/static/js/script.js:176-178 | one guarded `setItem`: a present field's value is written under its key; an absent field leaves the store as it was; no other key changes |
| `FormScript.SavedDraft` | TESTETSET/static/js/script.js:175-179 | each present field's key gets its value; absent fields' keys and all other keys keep what they had |
| `FormScript.ClearedDraft` | TESTETSET/static/js/script.js:186-190 | the three draft keys are gone and every other entry stays |
| `FormScript.DraftRoundTrip` | TESTETSET/static/js/script.js:164-179 | after a save, a later load restores a non-empty saved value, keeps the rendered value for an empty one, and sees the old store for an absent field |
| `FormScript.ClearedDraftLoadsNothing` | TESTETSET/static/js/script.js:164-190 | after a clear, loading keeps every rendered value |
| `FormScript.Page.DraftEnabled` | TESTETSET/static/js/script.js:158 | the draft component's guard: the page has a form and its path is `/create`; a predicate without a contract, used by the constructor, `Input` and `Submit` |
| `FormScript.Page.constructor` | TESTETSET/static/js/script.js:155-172 | counters show the rendered lengths; on `/create` with a form the fields are loaded from the draft, elsewhere they and the store stay as rendered |
| `FormScript.Page.InstallCounters` | TESTETSET/static/js/script.js:77-119 | a counter exists exactly for each present field and shows its length |
| `FormScript.Page.UpdateTitleCounter` | TESTETSET/static/js/script.js:88-98 | the title counter shows "{len} / {max} 文字" in the colour for that length |
| `FormScript.Page.UpdateContentCounter` | TESTETSET/static/js/script.js:111-114 | the content counter shows "{len} 文字" |
| `FormScript.Page.LoadDraft` | TESTETSET/static/js/script.js:164-172 | each field becomes its restored value |
| `FormScript.Page.SaveDraft` | TESTETSET/static/js/script.js:175-179 | the store becomes the saved draft of the current fields |
| `FormScript.Page.ClearDraft` | TESTETSET/static/js/script.js:186-190 | the store loses the three draft keys |
| `FormScript.Page.CheckSubmit` | TESTETSET/static/js/script.js:32-62 | cancelled exactly when a present title, author or content is blank; the alert, shown only then, is the failing fields' messages in that order |
| `FormScript.Page.Input` | TESTETSET/static/js/script.js:181-183 | only the typed field changes; its counter shows the new length; on the create page the store becomes the saved draft, elsewhere it is unchanged |
| `FormScript.Page.Submit` | TESTETSET/static/js/script.js:186-190 | the validator's verdict, then on the create page the draft keys are removed whether or not the submit was cancelled |
| `FormScript.DraftAcrossVisits` | TESTETSET/static/js/script.js:155-191 | a typed title comes back on reload and is gone after a submit and another reload |
| `FormScript.OtherPagesKeepStore` | TESTETSET/static/js/script.js:158 | off the create page, load, input and submit leave the store untouched |
| `FormScript.CancelledSubmitClearsDraft` | TESTETSET/static/js/script.js:186-190 | a submit cancelled for a blank title still empties the draft |
| `FormScript.CounterAfterDraftLoad` | TESTETSET/static/js/script.js:155-172 | after a draft load the title counter still shows the rendered length |
| `FormScript.CounterSamples` | TESTETSET/static/js/script.js:89-97 | "5 / 10 文字" in the neutral colour for five of ten characters; warning at ten |

## Left out

- Flask routing, templates, `flash`, `redirect` and the error handlers: framework calls, not table logic. The GET branches of `create` and `edit` only render a page and change nothing.
- Concurrent requests. Requests are modelled one at a time, each load, change and save of the posts file as one atomic step. Flask's threaded server can interleave two handlers, each of which loads the file, changes its own copy and saves it without a lock, so one request can overwrite another's update. A load that overlaps the truncating `open(..., 'w')` of a save can also read a malformed file and fall back to an empty table. Neither interleaving is modelled.
- `init_posts_file`, `load_posts` and `save_posts`, including the fallback to an empty list on a missing or malformed file. The table is an in-memory sequence instead.
- `datetime.now()`: the creation and update times are parameters. Real times are ISO-8601 strings, and the listing sorts those as strings. The model keeps them as ordered integers and does not model the string format.
- A stored post without a `created_at` or `id` key, which would raise in the server. Every modelled post has every field.
- Text lengths count the elements of a Dafny string. JavaScript's `value.length` counts UTF-16 code units, which differs for characters outside the Basic Multilingual Plane.
- The whitespace sets are written out from the Python and ECMAScript definitions. No general lemma depends on their exact members; only the concrete scenario `CancelledSubmitClearsDraft` uses a few of them (the space is whitespace, `下` and `名` are not). The model does not claim the two sets are equal.
- `maxlength` is a natural number, with an empty or missing attribute meaning 100. The counter therefore prints the attribute in canonical decimal; a written value such as `050` would show as written. The model does not follow string-to-number coercion, nor the floating-point rounding of `maxLength * 0.9`; the colour test is the exact comparison 10·len > 9·max.
- The fade-out timers of flash messages, the card entrance animation, `window.scrollTo`, the `confirm()` dialog of `confirmDelete` and `console.log`: timer and DOM effects with no state the other parts read.
- The Ctrl/Cmd+Enter shortcut: `form.submit()` does not dispatch a `submit` event, so neither the validator nor the draft clearing runs. That is browser event semantics.
- A page is modelled with one `.post-form` holding the three fields. The counters look up `#title` and `#content` in the whole document, and the validator and the draft look inside the form; the model treats these lookups as finding the same elements.
- Storage failures (a full or disabled `localStorage`): the store always accepts writes.
