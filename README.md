# MovieTube deep-scan shopping UI: a Dafny model

This project models the stateful logic of a small browser application. The user picks a
video from a library (three seed videos plus the user's own uploads) and watches it. Pausing
the video, or pressing "Full Scan", captures the current frame and sends it to an AI
detector. The detected products appear in a results panel, and each one can be searched for
on a marketplace in a new browsing context.

Three event-handler layers are modelled, each as a sequential state machine:

- **The application component** (`App.tsx`).
  - The application state is the class `App.AppState`. Each handler is a method that
    overwrites its fields.
  - Each method is proved equal to `App.Apply`, which computes the same transition from the
    old state and an `App.AppEvent`.
  - The invariant `App.Consistent` holds initially, and every event the page offers
    preserves it.
  - The pure rules live in module `Catalog`: the seed catalog, the search URL, the
    uploaded-video rule, the "Your Upload" badge and the library filter.
- **The video player** (`components/VideoPlayer.tsx`), modelled as the class
  `Player.VideoPlayer`.
  - It holds the application state, because its `onScanStart` and `onScanComplete` props
    are the application's handlers.
  - The canvas context, the JPEG encoding, the remote reply and the JSON parser are inputs
    (`Player.ScanEnv`).
  - The field `trace` records every call the player makes, in order.
- **The results panel** (`components/ShoppingPanel.tsx`).
  - The pure render choice is `Panel.Render`.
  - The class `Panel.ShoppingPanel` holds the search box text. Its `onManualSearch` is the
    application's redirect handler.

Supporting modules:

- `Text`: the JavaScript string operations used, over Unicode scalar values. These are
  `trim`, `replace(/\s+/g, '')`, `split`, `includes`, `startsWith`, ASCII `toLowerCase`
  and decimal numerals.
- `UriCoding`: `encodeURIComponent` and `decodeURIComponent`, following the Encode and
  Decode operations of the ECMAScript Language Specification (section 18.2.6 of the
  ES2015 edition). These use UTF-8 and percent-encoding as in section 2.1 of RFC 3986.
- `Detection`: the contract the scan relies on from the detector service.
- `Types`: the records of `types.ts`. `brand` and `attributes` are `Option`s.

## Model

| member | source | states |
|---|---|---|
| Text.TrimStart | components/ShoppingPanel.tsx:18 | the result is a suffix of the input, everything removed is whitespace, and it does not start with whitespace |
| Text.TrimEnd | components/ShoppingPanel.tsx:18 | the result is a prefix of the input, everything removed is whitespace, and it does not end with whitespace |
| Text.Trim | components/ShoppingPanel.tsx:18-19 | the trimmed query is no longer than the text and has whitespace at neither end |
| Text.TrimEmptyIff | components/ShoppingPanel.tsx:18 | `trim()` gives the empty string iff the text is whitespace only, so exactly blank text is rejected |
| Text.TrimIdempotent | components/ShoppingPanel.tsx:18-19 | trimming the submitted query again changes nothing |
| Text.StripWhitespace | components/ShoppingPanel.tsx:121 | the result has no whitespace and is a subsequence of the attribute |
| Text.StripWhitespaceIdentity | components/ShoppingPanel.tsx:121 | text without whitespace is kept unchanged |
| Text.StripWhitespaceConcat | components/ShoppingPanel.tsx:121 | deleting whitespace distributes over concatenation, so every non-whitespace character is kept in order |
| Text.IncludesIff | App.tsx:99-100 | `includes` holds iff the needle occurs at some index of the text |
| Text.IncludesEmpty | App.tsx:99-100 | every text includes the empty string |
| Text.Includes | App.tsx:99-100 | a text includes only needles no longer than itself; with `IncludesIff` it holds iff the needle occurs at some index |
| Text.StartsWith | App.tsx:244 | a text that starts with a prefix includes it |
| Text.IncludesLower | App.tsx:99-100 | a needle found as written is still found after both are lower-cased |
| Text.Lower | App.tsx:99-100 | same length; each ASCII letter A–Z becomes its lower-case letter (code point plus 32); every other character is unchanged |
| Text.LowerIdempotent | App.tsx:99-100 | lower-casing twice is lower-casing once |
| Text.Split | App.tsx:72 | at least one field; no field contains the separator; joining the fields with it gives the input back |
| Text.FirstField | App.tsx:72 | field 0 is the longest separator-free prefix, followed by the separator when shorter than the input |
| Text.SplitAfterField | components/VideoPlayer.tsx:60 | a separator-free head, the separator, then a tail split into the head followed by the tail's fields |
| Text.SplitWithoutSeparator | components/VideoPlayer.tsx:60 | text without the separator splits into itself alone |
| Text.SplitFieldCount | components/VideoPlayer.tsx:60 | a split gives more than one field iff the separator occurs |
| Text.Decimal | App.tsx:71 | the numeral is non-empty, all digits, and has no leading zero except for 0 |
| Text.DecimalRoundTrip | App.tsx:71 | reading the numeral back gives the number |
| Text.DecimalInjective | App.tsx:71 | distinct clock readings give distinct numerals |
| Seqs.SubsequenceMembers | App.tsx:98-101 | every element of a subsequence is an element of the sequence |
| Seqs.SubsequenceLength | App.tsx:98-101 | a subsequence is no longer than the sequence |
| UriCoding.Utf8 | App.tsx:48 | a code point is written as one to four UTF-8 bytes |
| UriCoding.HexDigit | App.tsx:48 | a nibble is written as `0`–`9` or upper-case `A`–`F` |
| UriCoding.EncodeChar | App.tsx:48 | an unreserved character is copied; any other becomes 3 to 12 characters starting with `%`, a multiple of three; the output alphabet is unreserved or `%` |
| UriCoding.PercentEncode | App.tsx:48 | three characters per byte, each `%` or an upper-case hexadecimal digit |
| UriCoding.EncodeUriComponent | App.tsx:48 | the encoding uses only unreserved characters and `%` |
| UriCoding.DecodeEscape | App.tsx:48 | a decoded escape sequence takes 3 to 12 characters and stays within the input |
| UriCoding.DecodeUriComponent | App.tsx:48 | decoding never lengthens the text, and text without `%` decodes to itself |
| UriCoding.CodePoint | App.tsx:48 | a code point is accepted iff it is at least the sequence's minimum, at most U+10FFFF and not a surrogate; the accepted character is that code point |
| UriCoding.HexRoundTrip | App.tsx:48 | an upper-case hexadecimal digit reads back as its value |
| UriCoding.DecodeEscapeOfChar | App.tsx:48 | the escapes written for a reserved character decode to that character and take all of them |
| UriCoding.DecodeEncode | App.tsx:48 | `decodeURIComponent(encodeURIComponent(s)) == s` for every string |
| UriCoding.EncodeInjective | App.tsx:48 | distinct queries have distinct encodings |
| UriCoding.EncodeUnreserved | App.tsx:48 | a query of unreserved characters is sent as it is |
| Catalog.SearchUrl | App.tsx:48 | the redirect URL starts with `https://www.amazon.com/s?k=` |
| Catalog.SearchUrlRoundTrip | App.tsx:47-51 | the `k` value is the whole rest of the URL (no `&` or `#`), and it decodes to the query |
| Catalog.SearchUrlInjective | App.tsx:47-51 | distinct queries open distinct URLs |
| Catalog.DefaultVideos | App.tsx:8-33 | exactly three seed videos with ids `def-1`, `def-2`, `def-3`, the seed titles and descriptions, the given video and thumbnail locators, and timestamps at one clock reading, 10 000 ms and 20 000 ms before it |
| Catalog.TitleRule | App.tsx:72 | the title is the file name up to the first `.`: the whole name without a `.`, empty when the name starts with `.` |
| Catalog.TitleOf | App.tsx:72 | the title is a `.`-free prefix of the file name |
| Catalog.UploadId | App.tsx:71 | an upload id is `user-` followed by one or more decimal digits |
| Catalog.UploadedVideo | App.tsx:70-77 | the new video has a `user-` id and shows the badge, its title follows the title rule, and it plays the object URL with the timestamp reading |
| Catalog.ShowsUploadBadge | App.tsx:244 | a `def-` id never shows the badge and a `user-` id always does |
| Catalog.UploadIdInjective | App.tsx:71 | `user-` ids from distinct clock readings differ |
| Catalog.BadgeSeparatesUploads | App.tsx:244 | the badge shows on every uploaded video and on no seed video |
| Catalog.Matches | App.tsx:99-100 | the empty search matches every video |
| Catalog.MatchesExactCase | App.tsx:99-100 | a search found as written in the title or the description matches |
| Catalog.MatchesIgnoresQueryCase | App.tsx:99-100 | lower-casing the search first changes no match |
| Catalog.FilterVideos | App.tsx:98-101 | a video is kept iff it is in the catalog and its lower-cased title or description includes the lower-cased search; each matching video is kept as many times as it occurs and no other is kept; the result is an order-preserving subsequence, no longer than the catalog |
| Catalog.FilterKeepsAll | App.tsx:98-101 | when every video matches, the whole catalog is kept in order |
| Catalog.FilterEmptyQuery | App.tsx:98-101 | the empty search shows every video |
| Catalog.FilterIdempotent | App.tsx:98-101 | filtering the filtered view again changes nothing |
| App.InitialConsistent | App.tsx:36-43 | the state at page load satisfies the consistency invariant |
| App.Apply | App.tsx:47-96 | one event grows the catalog by at most one video; only a redirect opens a tab, the search URL of its query; the scan callbacks keep catalog and selection |
| App.ApplyPreservesConsistent | App.tsx:47-101 | every event the page offers keeps the invariant: upload flag clear, selection in the catalog, ids `def-`/`user-`, no results while scanning, and the redirect target is the last search opened |
| App.ApplyKeepsTail | App.tsx:79 | one event keeps the old catalog as the tail of the new one |
| App.CatalogKeepsTail | App.tsx:79 | after any run of events the old catalog, seeds included, is still the tail of the catalog, in order |
| App.UploadPrepends | App.tsx:63-81 | no file: nothing changes; otherwise exactly one new video at the head, the old list behind it, the new video selected, the upload flag clear, results and redirect untouched |
| App.ScanRoundTrip | App.tsx:85-96 | a scan started then completed shows exactly the completion's items and screenshot, with no redirect, scanning off, and catalog and selection unchanged |
| App.LateCompletionIsAccepted | App.tsx:92-96 | a completion that arrives after another video was selected still overwrites the results |
| App.AppState.constructor | App.tsx:36-43 | the initial state: seed catalog, nothing selected, no results, no flags, empty search |
| App.AppState.FilteredVideos | App.tsx:98-101 | the library shows exactly the catalog videos matching the current search, never more entries than the catalog |
| App.AppState.PerformRedirection | App.tsx:47-51 | returns the search URL, sets the redirect target to exactly the query and opens that URL once |
| App.AppState.ShopNow | App.tsx:170 | "Shop Now" redirects again to the current target |
| App.AppState.HandleFileUpload | App.tsx:63-81 | the new state is the upload transition for the picked file and the clock, date and object URL given |
| App.AppState.HandleScanStart | App.tsx:85-90 | scanning on, results and screenshot cleared, redirect target cleared, all else unchanged |
| App.AppState.HandleScanComplete | App.tsx:92-96 | exactly the given items and screenshot stored, scanning off, all else unchanged |
| App.AppState.SelectVideo | App.tsx:239 | a library card sets only the selection, to that card's video |
| App.AppState.GoHome | App.tsx:114 | the logo clears only the selection |
| App.AppState.ScrollToBrowse | App.tsx:53-61 | "Library" and "Explore Library" clear only the selection |
| App.AppState.SetLibrarySearch | App.tsx:228 | typing in the library search changes only the search text |
| Detection.DetectCommercialProducts | services/geminiService.ts:70-76 | the detection throws iff the remote call fails; an empty reply gives no items, given that `parse` reads `{"items":[]}` as no items; a reply that does not parse gives no items rather than an error |
| Player.PayloadAfterComma | components/VideoPlayer.tsx:60 | for a data URL with one comma, the payload sent is exactly the text after it |
| Player.Payload | components/VideoPlayer.tsx:60 | a payload exists iff the data URL has a comma, and it contains no comma |
| Player.CaptureSteps | components/VideoPlayer.tsx:58-66 | after drawing, the last call is the one `onScanComplete` with the completion, and no earlier call is a start or a completion |
| Player.ScanSteps | components/VideoPlayer.tsx:44-67 | no call without the video and canvas; otherwise `onScanStart` then the context request, and the frame drawn at 1280×720 when a context is obtained |
| Player.ScanEffect | components/VideoPlayer.tsx:44-67 | a scan never changes the catalog, the selection, the opened tabs, the library search or the upload flag |
| Player.Completion | components/VideoPlayer.tsx:58-66 | the completion is `([], "")`, or carries the encoded data URL as its screenshot |
| Player.CountsOfConcat | components/VideoPlayer.tsx:44-67 | callback counts add up over concatenated traces |
| Player.ScanCallbacks | components/VideoPlayer.tsx:44-67 | no callback without the video and canvas; otherwise exactly one `onScanStart`, first, before the context request; exactly one `onScanComplete`, last, iff a context was obtained |
| Player.ScanData | components/VideoPlayer.tsx:54-66 | the frame is drawn at 1280×720; the detector gets the data URL's payload; success completes with its items and that data URL; a throw completes with `([], "")` |
| Player.ScanEffectOutcome | components/VideoPlayer.tsx:44-67 | after a scan, the state is unchanged, or left scanning when no context was obtained, or showing the completion's items and screenshot; catalog and selection are kept |
| Player.ScanKeepsConsistent | components/VideoPlayer.tsx:44-67 | a scan of any outcome keeps the application state consistent |
| Player.VideoPlayer.constructor | components/VideoPlayer.tsx:14-19 | a fresh player: not playing, nothing called |
| Player.VideoPlayer.HandleScan | components/VideoPlayer.tsx:44-67 | the calls made are exactly `ScanSteps`, the application state becomes `ScanEffect` of the old one, and the canvas is 1280×720 iff a frame was drawn |
| Player.VideoPlayer.CaptureAndDetect | components/VideoPlayer.tsx:58-66 | after drawing: encode, detect and complete once, with the detector's result or `([], "")` on a throw |
| Player.VideoPlayer.HandlePause | components/VideoPlayer.tsx:32-37 | after a pause the video is paused and `isPlaying` is clear; it scans iff no scan is running, with the canvas set to 1280×720 when a frame is drawn; otherwise nothing is called and the canvas is unchanged |
| Player.VideoPlayer.FullScan | components/VideoPlayer.tsx:105-106 | "Full Scan" scans whether or not a scan is running, with the same calls, state change and 1280×720 canvas as any scan |
| Player.VideoPlayer.TogglePlay | components/VideoPlayer.tsx:21-30 | with a video: play when paused, pause otherwise, `isPlaying` mirrors the new state, and one play or pause call is made; without one nothing happens |
| Player.VideoPlayer.HandlePlay | components/VideoPlayer.tsx:77 | after a play event the video is playing and `isPlaying` is set; nothing else changes |
| Panel.TagText | components/ShoppingPanel.tsx:121 | the tag is `#` followed by a whitespace-free subsequence of the attribute |
| Panel.TagOfSplitWords | components/ShoppingPanel.tsx:121 | a two-word attribute becomes `#` and the two words joined |
| Panel.CardFor | components/ShoppingPanel.tsx:85-133 | category, name and description are shown as given; the brand badge appears iff the brand is present and non-empty; tags appear iff attributes are present and non-empty, one per attribute; "Acquire Item" sends the name untrimmed |
| Panel.CardsFor | components/ShoppingPanel.tsx:85 | one card per item, in the items' order |
| Panel.Render | components/ShoppingPanel.tsx:24-147 | skeleton iff loading; otherwise the count is the number of items, the frame shows iff the screenshot is a non-empty string, one card per item, and the empty-state message iff there are no items |
| Panel.PanelAfterScan | components/ShoppingPanel.tsx:24-147 | the skeleton shows while a scan runs; after it completes, the frame shows iff the screenshot is non-empty, with one card per item and the empty state iff there are none |
| Panel.ShoppingPanel.constructor | components/ShoppingPanel.tsx:14 | the search box starts empty |
| Panel.ShoppingPanel.SetLocalSearch | components/ShoppingPanel.tsx:61 | typing sets the box text only |
| Panel.ShoppingPanel.HandleSearch | components/ShoppingPanel.tsx:16-22 | non-blank text: one search with the trimmed text, a redirect to it, and the box cleared; blank text: nothing changes |
| Panel.ShoppingPanel.ClickAcquire | components/ShoppingPanel.tsx:127-128 | "Acquire Item" searches once for the item's name, as it is, and redirects to it |

## Left out

- Browser I/O is not modelled. Canvas drawing, JPEG encoding at quality 0.8,
  `URL.createObjectURL`, `window.open`, scrolling, `setTimeout` and smooth-scroll options
  are all left out.
  - The encoded frame, the object URL, the seed media locators and the upload thumbnail
    locator (a constant at App.tsx:75) are opaque strings given as inputs.
  - Opening a tab is recorded as an entry in `openedTabs`.
- The clock and the locale are inputs. `Date.now()` and `toLocaleDateString()` become
  parameters.
  - An upload reads the clock twice, for the id and the timestamp, so it takes two
    separate readings.
- The detector service's request is left out: its prompt, response schema, model name and
  temperature. The remote call is an oracle `reply`, and `JSON.parse` is an oracle `parse`.
- Async interleaving and React batching are not modelled. Each `await` is one step, and
  each `setX` takes effect immediately.
  - The scan has no guard against stale results, so a completion always overwrites the
    results (`App.LateCompletionIsAccepted`). A stale scan's result is not discarded.
  - `handlePause` reads the `isScanning` prop of its last render; the model reads the
    current application state.
  - `Player.VideoPlayer.TogglePlay` records the play or pause call. The `pause` event that
    call fires is a separate `HandlePause` call.
- `Text.Lower` only maps the ASCII letters A–Z. Full Unicode case mapping is left out.
- Strings are sequences of Unicode scalar values, not UTF-16 code units.
  - A lone surrogate cannot occur, so `encodeURIComponent` never throws in the model.
- `Catalog.DefaultVideos` reads the page-load clock once. The code calls `Date.now()`
  separately for each seed (App.tsx:15, 23, 31), so its three readings may differ by a
  few milliseconds. The model does not capture that difference.
- The decimal rendering of `Date.now()` is modelled for non-negative readings only.
- Floating-point display values are left out: the confidence bar width, the progress
  percentage and `handleProgress`.
- Presentation is left out: styling, icons (`components/Icons.tsx`), markup and the
  seed media URLs.
- `Player.Payload` is the second comma-separated field of the data URL, as the code's
  `split(',')[1]` computes. This is the text after the first comma only when there is one
  comma, which is what a data URL has (`Player.PayloadAfterComma`).
- A handler that throws inside the scan's `try` block would call `onScanComplete` a second
  time. The application's handlers never throw, so this case is not modelled.
- `App.AppState.SelectVideo` requires the video to be one the library grid shows. It does
  not also require that no video is selected.
