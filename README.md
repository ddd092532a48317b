# Screenshot extension: a verified model of its state machines

The extension takes screenshots of browser tabs, whole or as a dragged region. It
groups them into sessions, can record a spoken transcript alongside, and exports
them from a gallery page. Four scripts carry the logic:

- **background.js**: the coordinator. It handles every message and owns the
  current session, the active transcript and the recording flag. It is the only
  part that writes new screenshots and transcripts to `chrome.storage.local`.
- **content.js**: the region-selection overlay injected into web pages.
- **popup.js**: the toolbar popup. It has the session, capture and voice buttons,
  the speech-result accumulation and the recent-thumbnail strip.
- **dashboard.js**: the gallery. It derives the session table, filters and
  sorts, deletes, clears, and does the package export.

The model has one Dafny module per script, plus three shared ones:

- `Records`: the stored records, the `Request` and `Response` messages, and
  `Table`. A `Table` is a JavaScript object used as a dictionary: its entries
  plus the insertion order of its keys, which is the order `Object.values`
  follows. Session and screenshot ids are `Date.now()` strings, larger than
  2^32, so JavaScript orders them as string keys, by insertion.
- `Storage`: the `LocalStore` class, standing for `chrome.storage.local`. A missing
  key reads as an empty table, as every reader in the source defaults it to `{}`.
- `Listing`: the session filter, a stable timestamp sort and the prefix taken.
- `ExportNames` and `Packaging`: the dashboard's export file names and the
  package export's manifest entries and downloads.

Each script with module-level variables becomes a class with those fields:

- `Background.Coordinator`;
- `Content.RegionSelector`;
- `Popup.Panel`;
- `Dashboard.Gallery` (its page-level copies `allScreenshots`, `allTranscripts`
  and `sessions`).

All of them share one `LocalStore` object. Messages the popup and the content
script send are appended to an `outbox` sequence. The replies they act on are
inputs. Platform values come in as parameters:

- the clock;
- the formatted date;
- `getBytesInUse` and `QUOTA_BYTES`;
- the active tab;
- the captured image;
- `confirm` and `prompt` answers;
- microphone access.

## Model

| member | source | states |
|---|---|---|
| `Records.Or` | background.js:62 | JavaScript's or on optional strings: `a` when it is truthy (present and non-empty), else `b` |
| `Records.NatToString` | background.js:35 | `Date.now().toString()`: at least one character, all decimal digits, a single digit exactly below 10, and a leading '0' only for zero itself (no leading zeros) |
| `Records.DecimalRoundTrip` | background.js:35 | reading the digits of `n.toString()` back gives `n` |
| `Records.ClockIdsDistinct` | background.js:169 | ids made at two different clock values differ; only same-millisecond records collide |
| `Records.SessionIdOf` | background.js:170 | `currentSession?.id`: present exactly when there is a session, and then its id |
| `Records.Table.Values` | background.js:93 | `Object.values`: one value per key, in key order |
| `Records.Table.Put` | background.js:189 | `obj[k] = v`: only key `k` changes; a new key goes last, an existing one keeps its place; well-formedness is kept |
| `Records.Table.Delete` | dashboard.js:137 | `delete obj[k]`: exactly `k` is removed, every other key and entry is kept, and the remaining keys keep their relative order (a subsequence of the old key order) |
| `Records.PutTwice` | background.js:88-100 | writing a key twice leaves the second value, the key where the first write put it |
| `Records.EmptyTable` | background.js:188 | the `{}` a missing storage key defaults to |
| `Records.FailureMessagesDistinct` | background.js:53-155 | the five error texts a reply can carry differ from each other, so the error names its cause |
| `Records.FailureMessageStart` | background.js:147 | only the storage refusal's text starts with 'S', and no text is empty |
| `Records.RoundedPercent` | background.js:147 | `toFixed(0)` of the exact percentage: the integer nearest to 100 * bytes / quota, halves rounded up |
| `Storage.LocalStore.PutScreenshot` | background.js:188-190 | writing the screenshot table back with one record put under its id keeps the store well formed |
| `Storage.LocalStore.PutTranscript` | background.js:87-89 | writing the transcript table back with one record put under its id keeps the store well formed |
| `Storage.LocalStore.Clear` | popup.js:341 | `chrome.storage.local.clear()`: both tables empty and no stored session |
| `Background.EffectiveQuota` | background.js:127 | the platform's quota when it gives one, otherwise exactly 5242880; always positive |
| `Background.ReportedPercent` | background.js:128-147 | the rounded percentage in the refusal agrees with the test: at least 90 when a capture is refused, at most 90 when it goes ahead |
| `Background.CaptureTarget` | background.js:151-159 | the request's tab when it names a window, otherwise the active tab (or none) |
| `Background.Associated` | background.js:94-95 | a screenshot counts for a transcript only if it has the transcript's session and a timestamp at or after its start |
| `Background.AssociatedIds` | background.js:93-96 | the filter-and-map lists at most one id per stored screenshot |
| `Background.AssociatedIdsMembers` | background.js:93-96 | an id is listed iff some screenshot with that id has the transcript's session and a timestamp at or after its start |
| `Background.AssociationIsExact` | background.js:92-98 | over a keyed store: the filter-and-map lists exactly the ids of the stored screenshots of the session taken at or after the start; there is no upper time bound |
| `Background.NewSession` | background.js:34-39 | the session 'createSession' makes: the clock id, the given name or `Session <date>` when the name is empty, the creation time, count 0 |
| `Background.Finished` | background.js:83-98 | the saved transcript keeps its id, session and start, carries the request text and the end time, and lists an id exactly when some screenshot given has that id, the transcript's session and a timestamp at or after its start |
| `Background.SavedIdsExact` | background.js:92-98 | saved over a keyed screenshot table, a transcript lists exactly the ids of the stored screenshots of its session taken at or after its start |
| `Background.NewShot` | background.js:168-179 | the capture record: the clock id, the current session's id (none outside a session), the image, the tab's url and title, the type and region, sequence number count + 1 (1 outside a session), the working text only while recording |
| `Background.Coordinator.constructor` | background.js:3-6 | the worker starts with no session, no transcript, recording off and empty text |
| `Background.Coordinator.Handle` | background.js:14-121 | per action, the reply and new state are exactly those of its handler ('test' replies with its message and changes nothing); 'getRecordingState', 'clearAllData' and 'startRegionSelection' fall to the default branch and get 'Unknown action' with nothing changed; every error reply leaves coordinator and store unchanged; the recording invariant is kept |
| `Background.Coordinator.GetCurrentSession` | background.js:25-31 | falls back to the stored session only when none is in memory and replies with the result; nothing else changes |
| `Background.Coordinator.CreateSession` | background.js:33-42 | the new session becomes current, is persisted and is returned; the tables and the recording state are untouched |
| `Background.Coordinator.StartTranscript` | background.js:59-71 | always succeeds; installs a fresh transcript (request's session id, else the current session's; empty text and list), overwriting any active one; recording on, working text empty; the session and the store are untouched |
| `Background.Coordinator.UpdateTranscript` | background.js:73-79 | the working text becomes `text` only while recording and when `text` is non-empty; always success; nothing else changes |
| `Background.Coordinator.SaveTranscript` | background.js:81-109 | with no active transcript: 'No active transcript', nothing changed; otherwise the success path below |
| `Background.Coordinator.FinishTranscript` | background.js:83-105 | only the transcript's key is written, with the finished record, whose ids are exactly the stored screenshots of its session taken at or after its start; the reply carries it; recording stops, text and transcript reset; session, screenshots and stored session untouched |
| `Background.Coordinator.EndRecording` | background.js:103-105 | no active transcript, recording off, empty working text |
| `Background.Coordinator.StoreTranscript` | background.js:86-100 | the two writes of a save leave the transcript's key holding the finished record, and its ids are exactly those of the stored screenshots of its session taken at or after its start |
| `Background.Coordinator.CaptureScreenshot` | background.js:140-203 | nearly full (`bytes*100 > 90*quota`): refused with the usage and quota, no write; no usable tab: 'No active tab found', no write; else the reply carries the new record, only its key is added to `screenshots`, the session's count is incremented and persisted, and the transcript state and transcripts table are untouched |
| `Background.Coordinator.StoreCapture` | background.js:168-196 | the success path: the new record, its write under its id, and the session count's increment and persistence |
| `Background.Coordinator.CaptureRegion` | background.js:49-57 | neither the sender's nor the request's tab: 'No tab information available', nothing changed; otherwise exactly the capture of the sender's tab, else the request's, as a region record carrying the rectangle, with all its outcomes (refusals, record fields, count) |
| `Background.ConsecutiveCaptures` | background.js:193-196 | two captures in a newly created session are numbered 1 and 2 and leave the count at 2 |
| `Listing.InSession` | dashboard.js:64-66 | keeps only screenshots of the session; keeps all when there is no session |
| `Listing.InSessionContents` | popup.js:114 | each kept screenshot occurs as often as in the input, every other screenshot not at all |
| `Listing.SortByTime` | dashboard.js:180 | a permutation of its input, ordered by timestamp in the requested direction |
| `Listing.Take` | popup.js:116 | `slice(0, n)`: the first `min(n, length)` elements |
| `Listing.PrefixIsNewest` | popup.js:115-116 | the first n of a newest-first sequence are at least as new as everything left out |
| `Listing.TakeFromOrdered` | popup.js:115-116 | a prefix of an ordered sequence is ordered and nothing left out comes strictly before anything kept |
| `Content.LiveRect` | content.js:69-72 | non-negative width and height, and the rectangle's two x edges are the start and current x (likewise y), whichever way the drag went |
| `Content.LiveRectUnique` | content.js:69-72 | those facts determine the rectangle: it equals `min`/`abs` of the corners |
| `Content.SpanUnique` | content.js:69-72 | one axis of that: a non-negative span whose two ends are the drag's two coordinates starts at their minimum and has their distance as its size |
| `Content.PageRegion` | content.js:98-103 | the page rectangle has the box's size and its position moved by the scroll offset, so the size test gives the same answer on both |
| `Content.LargeEnough` | content.js:96 | a box goes to capture only when it is at least 11 pixels wide and tall |
| `Content.RegionSelector.constructor` | content.js:3-6 | no overlay, not selecting, start point 0, no listeners |
| `Content.RegionSelector.AtMostOneOverlay` | content.js:28-43 | at most one overlay is ever in the page |
| `Content.RegionSelector.OnMessage` | content.js:9-15 | only 'startRegionSelection' opens an overlay and is answered with success, with the box reset and the selection state, start point and sent messages kept; other actions get no reply and change nothing |
| `Content.RegionSelector.StartRegionSelection` | content.js:17-26 | a new overlay is attached and the listeners installed; the box is reset; the selection state, start point and sent messages are kept |
| `Content.RegionSelector.CreateOverlay` | content.js:28-43 | any previous overlay is removed and a new one is the only one attached |
| `Content.RegionSelector.MouseDown` | content.js:45-61 | starts a selection at the pointer only when the press is on the overlay itself |
| `Content.RegionSelector.MouseMove` | content.js:63-86 | while selecting the box is the live rectangle; otherwise nothing changes |
| `Content.RegionSelector.MouseUp` | content.js:88-108 | a box wider and taller than 10 is sent as 'captureRegion' at its page position (scroll added, size kept), the overlay stays; a smaller one cancels (`Cleaned`: overlay and listeners gone, box, start point, counter and messages kept); in both the start point and element counter are kept; not selecting: nothing changes |
| `Content.RegionSelector.KeyDown` | content.js:110-114 | Escape while listening is `Cleaned`: overlay and listeners gone, box, start point, element counter and messages kept; other keys change nothing |
| `Content.RegionSelector.OnCaptureReply` | content.js:116-149 | success or failure, the overlay is then cleaned up (`Cleaned`), with box, start point, element counter and messages kept |
| `Content.RegionSelector.Cleanup` | content.js:155-169 | `Cleaned`: no overlay, not selecting, no listeners; box, start point, element counter and messages kept |
| `Popup.FinalTextEmpty` | popup.js:248 | an event's final text is empty iff it has no final segment, so the transcript is kept exactly then |
| `Popup.TextsShape` | popup.js:239-246 | a non-empty final text ends with the space its last segment added; with only final segments the interim text is empty |
| `Popup.TextsAppend` | popup.js:239-246 | the final and interim texts of two runs of results are each run's text joined, so each segment is added once, in order |
| `Popup.Accumulate` | popup.js:239-246 | from `resultIndex` on, final segments are joined each followed by a space and interim ones joined with nothing between, in order |
| `Popup.RecentThumbnails` | popup.js:113-116 | at most ten (exactly `min(10, kept)`), newest first, and each kept screenshot at most as often as it is stored (a sub-multiset of the session's screenshots) |
| `Popup.RecentThumbnailsSelection` | popup.js:113-116 | every thumbnail is a screenshot of the current session (any when there is none), and no omitted one is newer than a shown one |
| `Popup.Panel.constructor` | popup.js:16-19 | no session, recording off, empty transcript |
| `Popup.Panel.LoadSession` | popup.js:92-107 | sends 'getCurrentSession' and takes the session only from a successful reply that has one |
| `Popup.Panel.LoadScreenshots` | popup.js:110-130 | the thumbnail strip is the recent-thumbnail projection of the store |
| `Popup.Panel.CheckRecordingState` | popup.js:32-56 | sends 'getRecordingState' and nothing else |
| `Popup.Panel.NewSessionClick` | popup.js:133-153 | a cancelled or empty name does nothing; otherwise 'createSession' is sent and a success makes the returned session current |
| `Popup.Panel.CaptureClick` | popup.js:156-189 | no session: only the status message, nothing sent; otherwise 'captureScreenshot' is sent and the status reports the sequence number or the error text |
| `Popup.Panel.CaptureRegionClick` | popup.js:192-211 | no session: only the status message; otherwise 'startRegionSelection' goes to the tab, or the status blames the page when it has no content script |
| `Popup.Panel.VoiceClick` | popup.js:279-285 | while recording: exactly the stop below, with the transcript kept; otherwise exactly the start below |
| `Popup.Panel.StartRecording` | popup.js:287-314 | granted: recording on, transcript cleared, 'startTranscript' sent with the session's id, status untouched; denied or failed: only the status message; without recognition nothing changes |
| `Popup.Panel.StopRecording` | popup.js:316-334 | without recognition nothing changes; otherwise recording off, and 'saveTranscript' is sent and 'Transcript saved' shown only when the transcript is non-empty, else outbox and status are untouched |
| `Popup.Panel.OnResult` | popup.js:235-258 | the transcript becomes this event's final text when there is some, else stays; 'updateTranscript' with transcript + interim is sent only when the transcript is non-empty |
| `Popup.Panel.OnRecognitionError` | popup.js:260-264 | the status shows the error, then the stop runs: recording off; with a non-empty transcript 'saveTranscript' is sent and 'Transcript saved' replaces the error; otherwise nothing is sent and the error stays |
| `Popup.Panel.ClearAllClick` | popup.js:337-360 | after confirmation the whole store is empty, the popup has no session or thumbnails, and 'clearAllData' is sent |
| `Dashboard.Tally` | dashboard.js:24-35 | one `forEach` step keeps the session table well formed |
| `Dashboard.Derived` | dashboard.js:23-35 | the derived session table is well formed |
| `Dashboard.DerivedContents` | dashboard.js:23-35 | a session is derived exactly for each non-empty session id some screenshot carries, named `Session <id>`, with no creation time and a count equal to that session's screenshots |
| `Dashboard.OpenAndCount` | dashboard.js:25-34 | one step of the loop, opening a new session at 0 and then incrementing it, is one Tally step |
| `Dashboard.DeriveSessions` | dashboard.js:24-35 | the loop that opens each session at 0 and increments it builds the derived table |
| `Dashboard.SessionTable` | dashboard.js:38-41 | the table with the stored session substituted is well formed |
| `Dashboard.SessionTableContents` | dashboard.js:23-41 | the stored current session replaces its id's entry, count included; every other entry is derived from the screenshots |
| `Dashboard.SessionTableCovers` | dashboard.js:23-41 | every stored screenshot with a non-empty session id has its session in the rebuilt table |
| `Dashboard.ClearedTable` | dashboard.js:163-171 | after clear-all the table holds only the stored current session, if any |
| `Dashboard.FilterId` | dashboard.js:64 | an empty selector value means no filter; any other value filters by that id |
| `Dashboard.DisplayOrder` | dashboard.js:63-69 | the grid: newest first, holding exactly the screenshots the session filter keeps |
| `Dashboard.FilteredData` | dashboard.js:175-183 | the export data: oldest first, holding exactly the screenshots the session filter keeps |
| `Dashboard.ListingsContents` | dashboard.js:63-69 | grid and export hold each screenshot of the filtered session as often as the store does and nothing else, the grid newest first and the export oldest first; an empty filter keeps all |
| `ExportNames.SkipSpaces` | dashboard.js:229 | the result is a suffix that does not start with white space |
| `ExportNames.SkipSpacesStrips` | dashboard.js:229 | what is dropped is a run of white space at the front, and the rest is kept as it is |
| `ExportNames.Sanitize` | dashboard.js:229 | `replace(/\s+/g, '-')` never lengthens a name |
| `ExportNames.SanitizeSpaceFree` | dashboard.js:229 | the result has no white space, and a name without white space is left unchanged |
| `ExportNames.SanitizeRun` | dashboard.js:229 | a whole run of white space becomes a single '-' |
| `ExportNames.ExportFileName` | dashboard.js:229-435 | a file name exists exactly when the session name does; it starts with the kind's prefix, ends with its stamp and extension, and between them holds exactly the sanitised session name |
| `ExportNames.ExportFileNameSpaceFree` | dashboard.js:229-435 | every export's file name is defined exactly when the session name is, and then holds no white space |
| `Dashboard.SessionLabel` | dashboard.js:390 | 'All Sessions' without a filter; with one, defined iff the filtered session is in the table, and then that session's name |
| `Dashboard.EntryNumber` | dashboard.js:209 | a heading number is at least 1: the sequence number when it is non-zero, else the position + 1 |
| `ExportNames.Extension` | dashboard.js:399 | '.jpg' when compression was chosen, '.png' without |
| `ExportNames.PackageFileName` | dashboard.js:417 | `screenshot-${index + 1}${extension}`: the fixed prefix, then the decimal digits of the number, then the extension |
| `ExportNames.PackageNamesDistinct` | dashboard.js:417 | two package entries never share a file name |
| `ExportNames.ReplaceFirst` | dashboard.js:512 | a string without the pattern is returned unchanged; an equal-length replacement keeps the length |
| `ExportNames.FirstOccurrenceShifts` | dashboard.js:512 | a first occurrence past the head of a string is the first occurrence in its tail, one place earlier |
| `ExportNames.ReplaceFirstAt` | dashboard.js:512 | `String.replace` with a string pattern: the first occurrence of the pattern, and only that one, is replaced |
| `ExportNames.DownloadName` | dashboard.js:512 | uncompressed the name is kept; compressed, a name without '.png' is kept, and the length never changes |
| `ExportNames.DownloadNameAt` | dashboard.js:512 | compressed, the first '.png' of the file name becomes '.jpg' and the rest of the name is kept |
| `ExportNames.DownloadNameMatchesManifest` | dashboard.js:441 | each image is downloaded under the name its manifest entry gives, compressed or not |
| `Packaging.OrElse` | dashboard.js:421-422 | JavaScript's `value or fallback` on strings: the value when it is non-empty, else the fallback |
| `Packaging.CaptureLabel` | dashboard.js:423 | 'Region Selection' exactly for region captures, 'Full Page' for full ones |
| `Packaging.ImageFormat` | dashboard.js:407 | the manifest's image format: 'JPEG (compressed)' with compression, 'PNG (original)' without |
| `Packaging.EntryFor` | dashboard.js:416-426 | manifest entry i is numbered i+1, named `screenshot-<i+1><ext>`, keeps the timestamp; title and URL are the screenshot's when non-empty, else 'Untitled' and 'N/A'; the label is 'Region Selection' exactly for regions, else 'Full Page'; the description is the transcript when truthy, else the fixed no-description text |
| `Packaging.ManifestEntries` | dashboard.js:416-427 | the manifest loop yields one entry per screenshot, entry i being the block for screenshot i |
| `Packaging.PackageDownloads` | dashboard.js:438-444 | the download loop yields one download per screenshot, download i saving image i under `screenshot-<i+1><ext>` |
| `Packaging.BuildPackage` | dashboard.js:388-445 | no data: nothing exported; a data set with an undefined session name: export fails; otherwise the manifest name and image format follow the session and the compression answer, entry i is exactly `EntryFor` screenshot i, and download i has its file name and image |
| `Dashboard.Gallery.constructor` | dashboard.js:3-6 | empty copies and no filter |
| `Dashboard.Gallery.LoadData` | dashboard.js:17-42 | copies both tables and rebuilds the session table, which then holds every screenshot's session |
| `Dashboard.Gallery.SetFilter` | dashboard.js:149-152 | the filter becomes the selector's value |
| `Dashboard.Gallery.DeleteScreenshot` | dashboard.js:134-144 | after confirmation the store's screenshots are the page's copy without that id, transcripts and stored session untouched, then reloaded; unconfirmed: nothing changes |
| `Dashboard.Gallery.ClearAll` | dashboard.js:163-171 | after confirmation both tables are empty, the stored session stays, and the table is rebuilt |
| `Dashboard.FilteredSessionKnown` | dashboard.js:187 | when every screenshot's session is in the table and the filter keeps some screenshot, the filtered session is in the table, so its name is defined |
| `Dashboard.Gallery.ExportAsPackage` | dashboard.js:388-445 | with nothing filtered nothing is exported; otherwise a package always results, named after the filtered session's label, in the answered image format, with entry i exactly `EntryFor` the i-th oldest filtered screenshot and download i under that entry's file name with its image |

## Left out

- One handler invocation sees one clock value: `Date.now()` read twice in a
  handler gives the same number in the model.
- Storage writes never fail in the model. In the source a failed `set` in
  'saveTranscript' (background.js:83-89) would leave the active transcript
  already changed in place and recording still on; the model's "an error
  changes nothing" rests on writes succeeding.
- Platform calls are inputs or left out, and the store is updated synchronously:
  `captureVisibleTab`, `tabs.query`, `tabs.sendMessage`, `tabs.create`,
  `runtime.sendMessage`, `getBytesInUse`, and the async `storage.local`
  calls. A message is an `outbox` entry; a reply is a parameter.
- Concurrency: several pages and the worker doing read-modify-write on the store.
  `DeleteScreenshot` writes back the gallery's own copy, so the model states it
  exactly, but races between surfaces are not modelled.
- DOM rendering, CSS, the modal viewer (`viewScreenshot`), the keyboard-shortcut
  panel and the privacy alert.
- Speech recognition and `getUserMedia`: only "available", "granted", "denied" and
  "failed with a message" are modelled. The `onend` auto-restart and the sync in
  `checkRecordingState` are left out. The coordinator never replies successfully
  to 'getRecordingState', so `CheckRecordingState` only sends.
- The popup re-reads the session and thumbnails after a capture or a new session,
  and refreshes its storage meter. These round-trips are left out. So are
  `window.close()` and the button enabling.
- `checkStorage` in the popup: the floating-point percentage, the MB display and
  the 60% and 80% colour thresholds.
- `Records.Table`: every key keeps its insertion order. JavaScript objects list
  integer-like keys below 2^32 first, in numeric order. `Date.now()` ids are far above
  that, but the model's clock (`Env.now: nat`) also allows small values, for which
  the real order would differ.
- `Listing.SortByTime`: only that the result is an ordered permutation is proved.
  That screenshots with equal timestamps keep their input order, as the stable
  built-in sort does, holds by construction but is not proved.
- `Background.NearlyFull`: the source compares the floating-point `bytes / quota * 100`.
  The model compares `bytes*100 > 90*quota` exactly, which differs only by rounding.
- `Records.FailureMessage`: the percentage in the storage error is rounded half up from
  the exact ratio. The source uses `toFixed(0)` on a floating-point value.
- Date formatting (`toLocaleString`, `toISOString`) is an input string. Template
  bodies are left out: the HTML, JSON, Markdown and text exports except their file
  names; the manifest's fixed text.
- `compressImage` (canvas scaling and JPEG quality) and the `atob`/Blob/object-URL
  download mechanics. If a data URL fails to parse, the source catches the error
  and skips that download; the model does not.
- The `setTimeout` staggering of downloads and the delayed overlay cleanup happen
  at once in the model.
- The region rectangle is the selection element's box as styled. The borders
  `getBoundingClientRect` would add are not modelled.
- In the source only the package export is wired to a button. The other five export file names
  are modelled but cannot be reached from the page.
