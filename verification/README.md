# QR code generator with scan tracking: a Dafny model

The application has two halves.

- A browser page (`public/assets/sample.js`). It trims the message typed into
  the form and renders a QR code for it. When tracking is switched on, it first
  asks the server for a short code and encodes that code's redirect URL
  instead. It offers PNG and SVG downloads, shows a dashboard of every tracked
  code, and renders the table of data capacities by symbol version,
  error-correction level and encoding mode.
- An Express server over SQLite (`server.js`). It keeps one `qr_codes` table
  keyed by an 8-character hexadecimal short code. It answers five requests:
  create a code, redirect a scan (counting it), report a code's statistics,
  list all codes newest first, and delete a code.

The model is split into one module per concern:

| module | file | what it models |
|---|---|---|
| `Wrappers` | wrappers.dfy | `Option` |
| `Decimal` | decimal.dfy | JavaScript's `'' + n` for non-negative integers, and its inverse |
| `Hex` | hex.dfy | `crypto.randomBytes(4).toString('hex')` with the random bytes as a parameter, and hex decoding |
| `Capacity` | capacity.dfy | the `DATA_CAPS` constant and its ordering |
| `CapsTable` | caps_table.dfy | `createDataCapsTable`: header rows and one body row per version |
| `Text` | text.dfy | the trim in `update_qrcode`, and the URL shortening in `loadDashboard` on UTF-16 code units |
| `Download` | download.dfy | `downloadQR` canvas arithmetic, module rectangles, PNG and SVG file names |
| `Ledger` | ledger.dfy | the `qr_codes` table as a map, and the five request handlers as pure functions returning the new table and the response |
| `Client` | client.dfy | the page's decisions in `update_qrcode`, the page variables, downloads and dashboard rows, connected to the server model |

The table is `map<short code, row>`, so the UNIQUE constraint on `short_code`
holds by construction. `id` is the AUTOINCREMENT counter `nextId`. Clock
readings (`CURRENT_TIMESTAMP`) are `nat` parameters. The four random bytes of
a new code are a parameter too. Every handler outcome is a datatype
constructor carrying its HTTP status.

Some behaviour of the code that the model keeps as written:

- On a short-code collision, the create handler answers 500 and stores
  nothing. It does not retry with a new code.
- The page never picks a symbol version itself. `create_qrcode` hands the
  form's choice, `typeNumber || 4`, to the external QR library, which also
  interprets the "Auto Detect" option (value "0").
- In `DATA_CAPS`, capacity grows strictly with version for every level and
  mode, from version 1 on. `Capacity.CapacityIncreasesWithVersion` proves it.
- JavaScript measures a string's `length` in UTF-16 code units, and Dafny's
  strings are sequences of Unicode scalar values. The URL shortening on the
  dashboard is therefore modelled on the UTF-16 encoding of the URL
  (`Text.Utf16`).
- `create_qrcode` throws when the text does not fit the chosen version.
  Whether it succeeds is the `renders` flag of `Client.Update`. On the
  tracked path, the short code and redirect URL are stored before rendering,
  so they stay set even when the render fails (see Findings).

## Model

| member | source | states |
|---|---|---|
| Capacity.TableShape | public/assets/sample.js:365-405 | `DATA_CAPS` has 40 version rows, each of 4 levels by 4 modes |
| Capacity.TableOrdered | public/assets/sample.js:365-405 | in every version row, capacity strictly falls from L to H and from Numeric to Kanji, and every entry is strictly below the same entry of the next version |
| Capacity.CapacityStep | public/assets/sample.js:365-405 | each version holds strictly more than the version before it, at every level and in every mode |
| Capacity.CapacityIncreasesWithVersion | public/assets/sample.js:365-405 | for any level and mode, a higher version holds strictly more characters, for every pair of versions 1..40 |
| Capacity.RowFallsByLevel | public/assets/sample.js:365-405 | in any version row ordered as the table's are, a later error-correction level holds strictly less than an earlier one in every mode |
| Capacity.RowFallsByMode | public/assets/sample.js:365-405 | in any version row ordered as the table's are, a later mode holds strictly less than an earlier one at every level |
| Capacity.CapacityDecreasesWithLevel | public/assets/sample.js:365-405 | for any version and mode, a stricter error-correction level holds strictly fewer characters |
| Capacity.CapacityDecreasesWithMode | public/assets/sample.js:365-405 | for any version and level, capacity strictly decreases through Numeric, Alphanumeric, Byte, Kanji |
| Capacity.VersionRow | public/assets/sample.js:356 | the row `DATA_CAPS[t]` handed to the renderer is 4 by 4 and `[e][m]` in it is the capacity of version t+1, level e, mode m |
| Capacity.CapacityBounds | public/assets/sample.js:365-405 | every `DATA_CAPS` lookup lies between 4 (version 1, level H, Kanji) and 7089 (version 40, level L, Numeric), and those two entries hold exactly these values |
| CapsTable.Column | public/assets/sample.js:351-359 | body cells run mode-major, level-minor: column `c` holds mode `c / 4` and level `c % 4`, within 16 columns |
| CapsTable.ColumnInjective | public/assets/sample.js:351-359 | two (level, mode) pairs share a column exactly when they are equal |
| CapsTable.ModeHeaderRow | public/assets/sample.js:310-325 | first header row: "Type" spanning two rows, then each mode name spanning four columns, in mode order |
| CapsTable.LevelHeaderRow | public/assets/sample.js:327-339 | second header row: 16 cells, the level letter of each (level, mode) column |
| CapsTable.RenderBodyRow | public/assets/sample.js:344-360 | a body row is labelled with t+1 in decimal and its cell `4m+e` shows `caps[e][m]` in decimal |
| CapsTable.RenderBody | public/assets/sample.js:343-361 | one body row per version in version order, each labelled with its version and showing that version's 16 capacities |
| CapsTable.RenderedBodyReadsBack | public/assets/sample.js:349-356 | every label of the rendered body parses back to its version, and every cell to the capacity of its (version, level, mode) |
| CapsTable.CreateDataCapsTable | public/assets/sample.js:298-363 | the whole table: 2 header rows of 5 and 16 cells and 40 body rows; each column's headings name its mode and level, and each body cell parses back to the capacity of its row's version and its column's level and mode |
| Decimal.FromNat | public/assets/sample.js:349 | `'' + n` is a non-empty string of decimal digits without a leading zero unless `n` is 0 |
| Decimal.ParseFromNat | public/assets/sample.js:349 | parsing the rendered decimal gives back the number |
| Decimal.FromNatInjective | public/assets/sample.js:349 | two numbers render the same exactly when they are equal |
| Hex.Encode | server.js:41 | hex encoding doubles the length and produces only lowercase hex digits |
| Hex.DecodeEncode | server.js:41 | decoding the hex form of any byte string gives the bytes back |
| Hex.EncodeDecode | server.js:41 | any string that decodes is the hex form of what it decodes to |
| Hex.GenerateShortCode | server.js:40-42 | a short code is 8 lowercase hex characters and decodes to exactly the four random bytes drawn |
| Hex.GenerateShortCodeInjective | server.js:40-42 | two draws give the same short code exactly when the bytes are the same |
| Hex.ShortCodeHasDraw | server.js:40-42 | every 8-character lowercase hex string is the short code of exactly the four bytes it decodes to |
| Text.Trim | public/assets/sample.js:52 | the result is a contiguous part of the message with only spaces cut off either side, neither end is a space, and it is empty exactly when the message is all space |
| Text.TrimUnique | public/assets/sample.js:52 | any split into leading spaces, a middle with no space at either end, and trailing spaces has the trimmed result as its middle |
| Text.TrimIdempotent | public/assets/sample.js:52 | trimming a trimmed message changes nothing |
| Text.Utf16 | public/assets/sample.js:248 | a string is at least as many UTF-16 code units long as it has characters, exactly as many precisely when every character lies below U+10000, and then its code units are its characters |
| Text.Utf16Append | public/assets/sample.js:248 | the UTF-16 encoding of a concatenation is the concatenation of the encodings |
| Text.DisplayUrl | public/assets/sample.js:248 | URLs of at most 40 UTF-16 code units are shown whole; longer ones as their first 40 code units followed by "..." |
| Text.DisplayUrlProperties | public/assets/sample.js:248 | the shown text is at most 43 code units, agrees with the URL on its first 40, and equals the URL exactly when the URL has at most 40 code units or is 43 code units ending in "..." |
| Text.DisplayUrlOfBmp | public/assets/sample.js:248 | for a URL whose characters all lie below U+10000 the limit is 40 characters, and the shown text begins with the URL's characters |
| Text.AstralCharCountsTwice | public/assets/sample.js:248 | a 40-character URL ending in U+1F600 is 41 code units long, so it is shortened, and the cut keeps only the high surrogate 0xD83D of its last character |
| Download.CanvasGeometry | public/assets/sample.js:157-161 | the canvas is a whole number of modules, never larger than the requested size, and short of it by less than one module |
| Download.CanvasIsLargestFit | public/assets/sample.js:158-161 | no larger cell size fits the requested size |
| Download.ExactSizeKept | public/assets/sample.js:158-161 | a requested size that is a multiple of the module count is kept exactly |
| Download.ModuleRectInCanvas | public/assets/sample.js:174-177 | every module's square lies inside the canvas |
| Download.ModuleRectInjective | public/assets/sample.js:177 | with cells of at least one pixel, different modules get different squares |
| Download.DrawModules | public/assets/sample.js:151-180 | the drawn squares all lie inside the canvas; every dark module's square is drawn, and every drawn square belongs to a dark module |
| Download.PngFileName | public/assets/sample.js:186-189 | the PNG name ends in ".png"; it starts with "qrcode_tracked_" exactly when the short code is truthy, and then the code follows; otherwise it starts with "qrcode_" |
| Download.SvgFileName | public/assets/sample.js:208-211 | the SVG name ends in ".svg"; it starts with "qrcode_tracked_" exactly when the short code is truthy, and then the code follows |
| Download.SizeTagRoundTrip | public/assets/sample.js:188-189 | the `<n>x<n>.png` tail of a PNG name reads back to `n` |
| Download.PngFileNameRoundTrip | public/assets/sample.js:187-189 | the PNG file name can be read back to the short code it was tracked under (none if untracked) and the canvas size |
| Download.PngFileNameInjective | public/assets/sample.js:187-189 | two PNG downloads get the same name exactly when code and canvas size agree |
| Download.SvgFileNameRoundTrip | public/assets/sample.js:209-211 | the SVG file name records the short code when the page treats the code as tracked, and none otherwise (an empty code counts as untracked) |
| Ledger.RedirectUrl | server.js:64 | the redirect URL is the request's base URL, then "/r/", then the code as its last path segment |
| Ledger.TrackingUrl | server.js:71 | the stats URL is the request's base URL, then "/api/stats/", then the code |
| Ledger.ServerUrlsDistinct | server.js:64-71 | on one server, redirect URLs and stats URLs each determine their code, and for codes of equal length a redirect URL is never a stats URL |
| Ledger.Create | server.js:45-75 | a missing or empty URL gives 400 and stores nothing; a short code already in the table gives 500 and stores nothing; otherwise exactly one unscanned row with the next id is added under the new code, the other rows are unchanged, and the reply carries the code, the redirect URL `/r/<code>`, the URL and the stats URL |
| Ledger.Resolve | server.js:78-109 | an unknown code gives 404 and changes nothing; a known code redirects to its URL, and its row gets one more scan and the scan time, all else unchanged; a failing UPDATE still redirects and leaves the table as it was |
| Ledger.Stats | server.js:112-137 | 404 exactly for an unknown code; otherwise the code, URL, scan count, creation time and last scan time of its row |
| Ledger.Delete | server.js:156-175 | removes exactly the row of the code, reporting success exactly when it existed; the other rows and the id counter are untouched |
| Ledger.ListAll | server.js:140-153 | the listing holds every row of the table exactly once, as stored, ordered by creation time newest first |
| Ledger.ListingLength | server.js:140-153 | a listing has exactly as many entries as the table has rows |
| Ledger.EmptyListing | server.js:140-153 | listing an empty table gives an empty list |
| Ledger.ListingOfTwo | server.js:140-153 | after creating A and later B on an empty table, the listing is B (id 2) then A (id 1), both unscanned |
| Ledger.EmptyValid | server.js:22-30 | a fresh table is valid: no rows, ids start at 1 |
| Ledger.CreatePreservesValid | server.js:45-75 | creating keeps every row's id below the counter, ids distinct, URLs non-empty, and "scanned at least once" equal to "has a last scan time" |
| Ledger.ResolvePreservesValid | server.js:94-106 | a scan keeps the table valid |
| Ledger.DeletePreservesValid | server.js:159-172 | a delete keeps the table valid |
| Ledger.CreateThenScan | server.js:45-137 | a new code reports zero scans and no last scan; its first scan redirects to the submitted URL and the code then reports one scan at that time |
| Ledger.DeleteThenNotFound | server.js:78-175 | after a delete the code gives 404 on redirect, on stats and on a second delete |
| Ledger.ScansAccumulate | server.js:94-103 | n successful scans of a code add exactly n to its count, set the last scan to the last time, and change no other row |
| Client.Decide | public/assets/sample.js:52-66 | an all-space message only shows the prompt; otherwise the trimmed, non-empty text is sent for tracking when tracking is on, and encoded directly when it is off |
| Client.TrackedRequestHasUrl | public/assets/sample.js:66-75 | a tracked request sent by the page is never answered with "URL is required" |
| Client.Update | public/assets/sample.js:50-126 | a blank message changes nothing; a plain run replaces the QR text and clears code and URL only if it renders; a created tracked reply always sets code and redirect URL and sets the QR text only if it renders; a failed request or error reply changes nothing |
| Client.Step | public/assets/sample.js:50-126 | only a tracked request touches the server's table, and then it is the table the create handler leaves for the trimmed message |
| Client.StepKeepsConsistent | public/assets/sample.js:79-124 | every run keeps the short code and redirect URL set together, the code 8 hex characters and the URL its redirect URL; a run whose render succeeds also keeps the QR code encoding that URL |
| Client.RenderFailureLeavesStaleCode | public/assets/sample.js:79-112 | a tracked run whose render throws leaves the page holding the new code while the QR code (and its PNG download, named after the new code) is the previous one, and the new row exists on the server |
| Client.CommittedStep | public/assets/sample.js:79-89 | with the code committed only after a successful render, a failed render changes no page variable, and the server table is the one the written version leaves |
| Client.CommittedStepKeepsConsistent | public/assets/sample.js:79-124 | with the commit after the render, every run keeps the page consistent, and a run whose render succeeds is the written run |
| Client.TrackedStepRedirectsToMessage | public/assets/sample.js:66-89 | a tracked generation stores the new code and its redirect URL, the QR code encodes that URL if the render succeeds and is unchanged otherwise, and a scan of the code redirects to the trimmed message |
| Client.DownloadPng | public/assets/sample.js:151-189 | no download without a current QR code; otherwise the canvas geometry for the requested size (within one module of it) and a file name that reads back to the page's short code and the canvas size |
| Client.DownloadSvg | public/assets/sample.js:198-211 | no download without a current QR code; otherwise a file name that reads back to the short code when the page treats it as tracked, and to none otherwise |
| Client.TrackedDownloadName | public/assets/sample.js:151-189 | after a tracked generation a PNG download exists exactly when the render succeeded or a QR code was already shown, and its name reads back to the new short code and the canvas size |
| Client.DashboardView | public/assets/sample.js:219-258 | an empty list shows "no codes yet"; otherwise one row per record, in order, with its code, link target, URL shortened on code units, scan count, creation time and last scan |
| Client.DashboardRowOf | public/assets/sample.js:240-257 | the URL shown in a dashboard row is at most 43 UTF-16 code units |
| Client.DashboardLinkIsRedirectUrl | public/assets/sample.js:243 | when the page is served by the same server, the copy link of a code is the redirect URL the create handler returned for it |

## Left out

- The QR symbol itself: the external `qrcode` library is not modelled. This covers mode and version selection, the `typeNumber || 4` default, masking, image tags and SVG output. Only its module count and `isDark` answers appear, as parameters of `Download.DrawModules`.
- DOM, `fetch`, `alert`, `confirm`, clipboard, canvas blobs, and the two-second stats polling: all are browser I/O.
- `getCellBg` colours and row shading in the capacity table: floating-point styling with no effect on the content.
- `toLocaleString` formatting of dates: locale-dependent. A dashboard row carries the raw clock readings of creation and last scan, and `None` stands for "Never".
- Express routing, JSON parsing, and SQLite I/O. Storage errors other than the UNIQUE violation on insert (the 500s for failing SELECT, DELETE or INSERT) are not modelled. A failing scan-count UPDATE is modelled, as the `updateFails` flag of `Ledger.Resolve`.
- Concurrency between requests: each handler is modelled as one atomic step.
- Randomness and clocks: the four random bytes and every timestamp are parameters.
- `Ledger.Create`: a JSON `url` that is a truthy non-string (a number or an object) is not modelled. The body's `url` is a string or absent.
- `Ledger.Resolve`: SQLite's 64-bit `scan_count` is an unbounded `nat`.
- `Decimal.FromNat`: JavaScript switches to exponent notation for numbers of 1e21 and above. Capacities and canvas sizes never come close.
- `Download.CanvasGeometry`: requires a positive module count, as the library always supplies one. Sizes are natural numbers; the page only offers fixed positive sizes.
- `Ledger.ListAll`: rows with equal `created_at` may come in any order, since SQLite does not fix one.
- `Text.Trim`: cuts Unicode scalar values, not code units. Every character of the space class lies below U+10000 and is not a surrogate, so this cuts the same code units JavaScript does. No lemma states this correspondence.
- `Client.Update`: whether `create_qrcode` throws is the `renders` parameter. Which texts fit which version is decided inside the QR library, which is not modelled.
- The rest of `server.js` (middleware, static files, start-up, shutdown) and of the page (`body_loadHandler` option lists, `create_qrcode` options, `deleteQRCode` confirmation) are glue around the modelled operations.

## Findings

| source | as written | input that shows it | evidently intended | confidence | as-written member | corrected member |
|---|---|---|---|---|---|---|
| public/assets/sample.js:79-112 | `currentShortCode` and `currentRedirectUrl` are assigned before `create_qrcode` runs. When it throws, the catch only shows an error, and the page keeps the new code next to the previous QR code | tracking on, version 1 and level M chosen, any non-blank message: the redirect URL (e.g. `http://localhost:3000/r/1a2b3c4d`, 32 bytes) exceeds the 14-byte capacity of version 1-M. A later PNG download of the previous (plain) QR code is named `qrcode_tracked_1a2b3c4d_...` | the code and URL are taken over only once their QR code has been rendered | medium (the throw happens inside the QR library); not executed | Client.RenderFailureLeavesStaleCode | Client.CommittedStepKeepsConsistent |

`Client.CommittedStep` is the corrected run. The other members keep the
written `Client.Step`, and `Client.CommittedStepKeepsConsistent` proves that
the two agree on every run whose render succeeds.
