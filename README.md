# Recital pages: a verified model

This project models the logic of three browser pages that run a dance recital.

- **Display page.** It reads the program file (a CSV with a header line), marks the item whose first column equals the current program index, and shows each item as completed, current or upcoming. It also shows a "now playing" panel and an "up next" panel. It polls the current index and reloads when the index changes.
- **Admin page.** It loads the same file and lets an operator make one item current or clear it. The change is posted to a remote API and mirrored in local storage. The string `"-1"` means that nothing is current.
- **Check-in page.** It lists performers from a check-in API and filters them by name. Each performer can be checked in or out. A click whose `name:action` request is still in flight is ignored.

Modules:

| file | module | what it holds |
|---|---|---|
| `text.dfy` | `Text` | An `Option` type and JavaScript's `||` on strings. Also `trim` over a fixed whitespace set, ASCII `toLowerCase`, `includes` and `split`, with their laws. |
| `csv.dfy` | `Csv` | The line tokenizer `ParseLine`, a loop over a field buffer and a quote flag. It is proved equal to the reference definition `Fields`, and the tokenizer's properties are proved about `Fields`. |
| `program.dfy` | `Program` | The program item and `Records`, the list both parsers build. Also the last current position, the admin page's re-marking `MarkCurrent`, and `find`. |
| `sync.dfy` | `Sync` | How a page settles on the current index: the API reply, the local storage fallback and the `"-1"` default. Also one polling tick and the cache the admin page leaves behind. |
| `display.dfy` | `Display` | The class `RecitalProgram`, with parsing, loading and polling. Also the status and panel choices. |
| `admin.dfy` | `Admin` | The class `AdminPanel`, with loading, parsing, toggling, clearing and updating. |
| `checkin.dfy` | `Checkin` | Performer normalisation, the name filter, the flag toggle, the request key, the payload and the class `CheckinPage`. |

Remote calls are inputs:

- `Sync.Response` is an ok reply carrying the index field, an error status, or a request that threw.
- `Admin.PostResult` is the outcome of the POST.
- `Checkin.StatusReply` is the check-in status reply.
- `Option<string>` is the program file's text, `None` when its fetch threw.
- `Option<string>` is also the local storage entry. The display page takes it as a parameter. The admin page keeps it in the field `storage`, because it writes it.
- The `useAPI` switch is a `bool` parameter.

Behaviours the model makes explicit:

- **Clearing differs from parsing.** Clearing marks rows differently from parsing. `parseCSV` never marks anything for `"-1"`. The admin page's in-place update marks every item whose index equals the new value, with no sentinel check. So "clear all" marks a row whose first column is literally `-1` (`Program.ClearMarksSentinelRows`, `Program.ClearDiffersFromReparseOnSentinelRow`). For any other index, the in-place update agrees with parsing the file again (`Program.MarkAgreesWithReparse`).
- **Re-reading the index.** When the display page holds `"-1"`, loading re-reads the index. An error status keeps `"-1"`, while a request that throws falls back to local storage (`Sync.ReloadIndex`). A second identical tick can then reload again (`Sync.FlakyRereadKeepsReloading`). When the API answers the same each time, polling settles after one reload (`Sync.PollSettles`, `Display.PollTwice`).
- **Unbalanced quotes.** An unbalanced quote in a line makes the rest of the line one field, commas included (`Csv.UnclosedQuoteAbsorbsRest`).
- **No response check on the file fetch.** Neither page checks the status of the program file fetch. Any body that arrives is parsed, so `Some(text)` stands for every response that was received.

## Model

| member | source | states |
|---|---|---|
| Text.OrNeverEmpty | script.js:42 | `value \|\| '-1'` is never empty; it is the value when that is truthy, the default otherwise |
| Text.Trim | script.js:134 | the result is the slice of the input that starts after its leading whitespace; it has no leading or trailing whitespace, and every character cut away before or after it is whitespace |
| Text.LeadingSpaces | script.js:134 | the count of whitespace characters the text starts with: all of them whitespace, and the next character (if any) is not |
| Text.TrailingSpaces | script.js:134 | the count of whitespace characters the text ends with: all of them whitespace, and the character before them (if any) is not |
| Text.TrimIdempotent | checkin/checkin.js:79 | trimming a trimmed string changes nothing |
| Text.LowerIdempotent | checkin/checkin.js:79 | lower-casing twice is lower-casing once |
| Text.ContainsAt | checkin/checkin.js:92 | `includes` holds exactly when the needle occurs at some position of the text |
| Text.Split | script.js:97 | splitting gives one more piece than there are separators, and no piece contains the separator |
| Text.JoinSplit | script.js:97 | joining the pieces with the separator gives back the text |
| Csv.ParseLine | script.js:123-143 | the one-pass tokenizer with buffer and quote flag returns exactly `Fields(line)`, at least one field even for an empty line; the admin page's copy (admin.js:87-107) is the same code |
| Csv.Pieces | script.js:128-140 | the untrimmed fields number one more than the commas met outside quotes, and no field holds a quote |
| Csv.Fields | script.js:128-142 | the returned fields number one more than the unquoted commas; none holds a quote; every one is trimmed |
| Csv.PiecesWithoutQuotes | script.js:128-140 | without quotes the tokenizer is a split on commas |
| Csv.FieldsWithoutQuotes | script.js:128-140 | a quote-free line gives the comma-separated pieces, each trimmed |
| Csv.QuotedRunIsOnePiece | script.js:131-137 | inside quotes a quote-free text is a single field, commas included |
| Csv.PiecesConcat | script.js:128-140 | tokenizing a concatenation joins the last field of the first part to the first field of the second, with the quote state carried over |
| Csv.UnclosedQuoteAbsorbsRest | script.js:128-140 | after an odd number of quotes, appending quote-free text adds no field, keeps the earlier fields, and is trimmed together with the open field into the last field |
| Program.Lines | script.js:97 | the trimmed text split on line breaks has at least one line |
| Program.ParseRow | script.js:104-117 | one loop iteration builds the record of a line: the first four columns, marked when the index is not `"-1"` and equals the first column; the admin page's loop body (admin.js:69-81) is the same |
| Program.RowsAreRecords | script.js:103-120 | building the records line by line after the header gives the parsed program |
| Program.ParsedProgram | script.js:100-120 | the loop's final list is the parsed program, and the remembered position holds the current index |
| Program.Records | script.js:96-121 | one record per line after the header |
| Program.RecordsFollowLines | script.js:96-121 | one record per line after the header, in file order; a record's index is the first field with no quote and trimmed; it is current iff the index is not `"-1"` and equals it |
| Program.RecordsMarkOnlyTheIndex | script.js:113-117 | a marked record carries the current index; `"-1"` marks nothing |
| Program.HeaderOnlyHasNoRecords | script.js:103 | a file of one line (the header) gives no records |
| Program.AtMostOneCurrent | script.js:113-117 | with distinct row indices, and every current item carrying the index `v` (true of parsed lists by `RecordsMarkOnlyTheIndex` and of re-marked lists by `MarkCurrent`), at most one item is current |
| Program.LastCurrent | script.js:100-117 | the position is -1 exactly when no item is current; otherwise that item is current and no later one is |
| Program.LastCurrentSnoc | script.js:114-116 | appending a current item moves the position to it; appending another keeps it |
| Program.MarkCurrent | admin.js:219-221 | the re-marked list has the same length, and an item is current exactly when its index equals the new value |
| Program.MarkCurrentSelects | admin.js:219-221 | re-marking keeps length, order and every other column; afterwards an item is current iff its index is the new value |
| Program.MarkCurrentIdempotent | admin.js:219-221 | updating twice with the same value is updating once |
| Program.MarkCurrentLastWins | admin.js:219-221 | only the last of two updates matters |
| Program.MarkAgreesWithReparse | admin.js:219-221 | for any index other than `"-1"`, re-marking a parsed list equals parsing the file with that index |
| Program.ClearMarksSentinelRows | admin.js:168-170 | clearing marks exactly the items whose index is literally `"-1"` |
| Program.ClearDiffersFromReparseOnSentinelRow | admin.js:219-221 | on the file `index\n-1`, clearing marks the row while parsing with `"-1"` does not |
| Program.FindFirst | admin.js:199 | `find` returns the first item with the index, and nothing exactly when no item has it |
| Sync.ResolveIndex | script.js:35-49 | the index a poll observes (and the admin page adopts) is never empty, and is `"-1"`, the API's value or the stored value |
| Sync.ReloadIndex | script.js:69-83 | the re-read index is never empty: on an ok reply it is what a poll observes, an error status keeps `"-1"`, and a request that throws or an API switched off falls back to the stored value |
| Sync.PollOnce | script.js:33-63 | a tick reloads exactly when the observed index differs from the held one, and never adopts an empty index |
| Sync.CacheAfter | admin.js:193-197 | the entry is removed exactly for `"-1"` and otherwise holds the new index (even `""`); reading it back gives the index, or `"-1"` when the index is empty or cleared |
| Sync.ResolvePrefersRemote | script.js:33-63 | the observed index is the API's non-empty value on an ok reply, `"-1"` for an empty one, the stored value (or `"-1"`) otherwise; never empty |
| Sync.PollReloadsOnlyOnChange | script.js:52-62 | a tick reloads exactly when the observed index differs from the held one; it then adopts the observed index, or, when that is `"-1"`, the index the reload reads again |
| Sync.PollSettles | script.js:33-94 | when the API (or storage) keeps answering the same, the tick after a reload is quiet |
| Sync.FlakyRereadKeepsReloading | script.js:66-83 | a re-read that throws while storage holds `"3"`, after a reply with no index, leaves the page reloading on the next tick |
| Sync.CacheFallbackAgrees | admin.js:193-197 | a page that cannot reach the API reads back the index the admin page stored, or `"-1"` when that index is empty (a row with an empty first column) or the index was cleared |
| Display.StatusAt | script.js:248-261 | an item is current exactly at the current position, every item is upcoming when nothing is current, and completed items exist only past position 0 |
| Display.StatusesInOrder | script.js:248-261 | along the list, statuses go completed, then at most one current, then upcoming |
| Display.NowPanelFor | script.js:164-195 | the "now playing" panel shows an item exactly when the position is within the list, and that item has status current; a welcome shows while nothing is current or the list is empty |
| Display.NextPanelFor | script.js:197-227 | the "up next" panel names an item inside the list, and shows "loading" exactly when nothing is current and the list is empty |
| Display.NextIsFirstUpcoming | script.js:197-227 | the next item is the first upcoming item, and there is none exactly when no item is upcoming |
| Display.NothingCurrentShowsFirst | script.js:201-211 | with nothing current the page welcomes, announces the first item, and all items are upcoming |
| Display.NowPlayingIsSelected | script.js:164-185 | on a parsed program, the "now playing" item exists iff some record is current (for `"-1"` none is, even on a row indexed `-1`), and it is the last row carrying the index, which is not `"-1"` |
| Display.ParseRecords | script.js:100-120 | the parse loop returns the parsed program and the position of its last current record |
| Display.RecitalProgram.constructor | script.js:10-15 | the page starts with an empty list, no current position and the index `"-1"` |
| Display.RecitalProgram.ParseCSV | script.js:96-121 | the list becomes the parsed program; the current position is its last current record, which carries the index |
| Display.RecitalProgram.LoadProgram | script.js:66-94 | holding `"-1"`, the index is re-read first; a fetched file is parsed, a failed fetch keeps the list |
| Display.RecitalProgram.CheckForUpdates | script.js:33-64 | the tick reloads exactly as `PollOnce` says and adopts the new index; a quiet tick changes nothing |
| Display.PollTwice | script.js:29-30 | two identical ticks reload at most once |
| Admin.TitleOf | admin.js:199-203 | the title shown is exactly that of the first item carrying the index, and it is missing when no item carries it |
| Admin.ToggleTarget | admin.js:159-165 | a click asks for the item's own index exactly when the item is not current (for an item not indexed `"-1"`), and otherwise for `"-1"` |
| Admin.NoticeFor | admin.js:186-226 | a failed post shows the fallback message; otherwise "cleared" exactly for `"-1"`, else the selected item's title |
| Admin.ToggleFlipsClickedItem | admin.js:156-166 | for a clicked item whose index is not `"-1"`: the click flips it; clearing leaves only `"-1"` rows current, selecting leaves only rows with the clicked index current |
| Admin.ToggleKeepsSentinelRowCurrent | admin.js:156-166 | a current item whose index is literally `"-1"` stays current when its button is clicked, since the click asks for `"-1"` again |
| Admin.ToggleTwice | admin.js:156-166 | when no row is indexed `"-1"` and the current rows are exactly those carrying the clicked row's index (as a click on it leaves them), clicking its button twice restores every flag |
| Admin.AdminPanel.constructor | admin.js:10-14 | the page starts with an empty list and the index `"-1"` |
| Admin.AdminPanel.LoadCurrentProgram | admin.js:24-42 | the index becomes the API's value on an ok reply, storage's value otherwise, `"-1"` when an ok reply has no truthy value, or, without an ok reply, when storage has none |
| Admin.AdminPanel.ParseCSV | admin.js:64-85 | the list becomes the parsed program; an item is current iff the index is not `"-1"` and equals its index |
| Admin.AdminPanel.LoadProgram | admin.js:52-62 | a fetched file is parsed, a failed fetch keeps the list |
| Admin.AdminPanel.Refresh | admin.js:46-49 | the refresh button re-reads the index, then the list |
| Admin.AdminPanel.MarkItems | admin.js:219-221 | the in-place loop sets every flag to "index equals the new value" and nothing else |
| Admin.AdminPanel.UpdateCurrentProgram | admin.js:172-240 | on success and on failure alike: the index becomes `v`, storage is removed for `"-1"` and set to `v` otherwise, and the list is re-marked; only the message differs |
| Admin.AdminPanel.ToggleCurrent | admin.js:156-166 | the click asks for `"-1"` on the current item and for the item's index otherwise |
| Admin.AdminPanel.ClearAll | admin.js:168-170 | clearing is updating to `"-1"`: storage removed, list re-marked, and the message is "cleared", or the fallback message when the post failed |
| Admin.SelectThenReload | admin.js:172-240 | after selecting an index, the list equals a fresh parse with that index, and a page without the API reads the index back from storage, or `"-1"` when the selected row's index is empty |
| Checkin.NormalizeActor | checkin/checkin.js:66-76 | name, age and group are never empty; each falsy field takes its default ("Unnamed Performer", an em dash, an empty string); instructions fall back to `other_instructions`; flags are true only for `true` |
| Checkin.NormalizeRoundTrip | checkin/checkin.js:66-76 | normalising a normalised performer changes nothing |
| Checkin.NormalizeAll | checkin/checkin.js:51 | one normalised performer per item of the reply, in order |
| Checkin.NormalizeQuery | checkin/checkin.js:79 | the normalised query is the input with its leading and trailing whitespace cut and each character lower-cased; it is trimmed and lower-case |
| Checkin.NormalizeQueryIdempotent | checkin/checkin.js:78-83 | the stored query is trimmed and lower-case, and normalising it again gives it back |
| Checkin.FilterName | checkin/checkin.js:91-93 | the filtered list is no longer than the list and holds only performers whose lower-cased name contains the query |
| Checkin.FilterKeepsMatches | checkin/checkin.js:91-93 | every matching performer is kept |
| Checkin.FilterAppend | checkin/checkin.js:91-93 | filtering keeps order: it distributes over concatenation |
| Checkin.FilterEmptyQuery | checkin/checkin.js:86-88 | every name contains the empty query |
| Checkin.Visible | checkin/checkin.js:85-94 | the shown list is no longer than the list and holds only listed performers |
| Checkin.VisibleIsFilter | checkin/checkin.js:85-94 | the shown list is the filter in all cases; a performer is shown iff it is listed and its name matches |
| Checkin.Toggled | checkin/checkin.js:210-215 | exactly one flag flips: check-in for `"check_in"`, check-out otherwise; every other field is unchanged |
| Checkin.ToggledTwice | checkin/checkin.js:210-215 | toggling twice restores the performer |
| Checkin.RequestKey | checkin/checkin.js:205 | the key is the name, a colon, then the action |
| Checkin.RequestKeyInjective | checkin/checkin.js:205 | for the two actions, different requests have different keys |
| Checkin.BuildPayload | checkin/checkin.js:233-247 | the payload carries the name and only the flag of the requested action, never both |
| Checkin.PayloadCarriesToggledFlag | checkin/checkin.js:210-247 | the payload carries the flipped value of the clicked flag |
| Checkin.CheckinPage.constructor | checkin/checkin.js:8-16 | the fields start with no performers, no query, not loading and no requests in flight |
| Checkin.CheckinPage.ApplySearchFilter | checkin/checkin.js:85-94 | the shown list is the visible selection: a performer is shown iff it is listed and matches the query |
| Checkin.CheckinPage.FilterByName | checkin/checkin.js:78-83 | the stored query is the normalised query and the shown list is refiltered |
| Checkin.CheckinPage.FetchStatus | checkin/checkin.js:35-64 | loading is over afterwards; success exactly for an array reply, which replaces and refilters the performers; a failure keeps them |
| Checkin.CheckinPage.BeginAction | checkin/checkin.js:200-218 | an empty action or a key in flight sends nothing and changes nothing; otherwise the key is added and the toggled performer's payload is sent |
| Checkin.CheckinPage.FinishAction | checkin/checkin.js:220-230 | the key is removed whatever happened; only an accepted update refreshes, and then the performers are the reply's and the shown list is the visible selection; loading is over after an accepted update and untouched after a failed one |
| Checkin.CheckinPage.HandleAction | checkin/checkin.js:200-231 | after completion the requests in flight are what they were; a request is sent iff the action is set and its key was not in flight; an ignored click changes no list and not the loading flag; a sent and accepted request followed by an array reply replaces the performers and refilters, any other outcome keeps both lists |
| Checkin.DoubleClick | checkin/checkin.js:205-208 | whatever other requests are in flight, a second click while the first request is in flight sends nothing, and afterwards the requests in flight are what they were |

## Left out

- Network I/O is not modelled. Fetch, HTTP status and JSON decoding are replaced by inputs: the index reply, the POST outcome, the check-in reply, and the program file text or its failure.
- Local storage's shared, cross-tab nature and its `storage` events are not modelled.
- `setInterval` polling, message timeouts and page start-up (`init`) are not modelled. The interleaving of async callbacks is not modelled either: every operation runs to completion, one at a time. The check-in page's `handleAction` is split at its awaits into `BeginAction` and `FinishAction` to show the guard.
- DOM rendering is left out: `updateDisplay`, `updateProgramList`, `createActorCard`, `buildDetailList`, `detailRow`, `buildButtonLabel`, `renderList`, `renderFallbackState`, alerts and messages, and `toggleButtonLoading`. Only the panel and status choices are kept, as functions.
- `updateDateTime` is left out. It is locale date formatting.
- `trim` removes a fixed whitespace set: space, tab, line feed, carriage return, vertical tab, form feed, no-break space and the byte-order mark. `toLowerCase` is ASCII only. The full Unicode tables are not modelled.
- The header split of the display page's `parseCSV` (script.js:98) is unused and left out.
- `sendUpdate`'s return value (a normalised echo of the reply) is not modelled, because `handleAction` ignores it.
- Checkin.BuildPayload: does not model the numeric `age` field, because it comes from JavaScript number parsing (`Number`/`NaN`).
- Checkin.NormalizeActor: fields are modelled as present strings or missing. A numeric JSON age of 0, which is falsy, is not modelled. Flags other than `true`/`false`/missing, which `Boolean` would coerce, are not modelled either.
- Display.RecitalProgram.ParseCSV: builds the list in a local sequence and stores it once at the end, where the source pushes into the field item by item. Nothing runs in between, so the resulting state is the same.
- Admin.AdminPanel.ParseCSV: builds the list the same way.
- Admin.AdminPanel.MarkItems: re-marks items by replacing them in the list. The source mutates the item objects in place, which could matter only if another reference to an item existed; none does.
- Admin.AdminPanel.ToggleCurrent: requires a position inside the list. The source only calls it with positions of rendered buttons.
- Checkin.CheckinPage.constructor: does not start the status fetch the source starts at the end of its constructor (checkin/checkin.js:19), which sets the loading flag before its first await. That fetch is `FetchStatus`, called on its own.
- Nothing else reads `fetchStatus`'s `showLoadingMessage` argument; it only chooses alerts.
