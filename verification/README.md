# LibreTexts print service and export widget — a Dafny model

The LibreTexts print service turns library pages into PDFs. It has two halves.

- **The batch server** (`nodePrint/batchPrint.js`) is an HTTP handler. It
  routes on the request path:
  - `/url=<page>` renders one page;
  - `/Libretext=` accepts a whole-book batch, but only as a PUT from a
    `libretexts.org` origin;
  - every other path goes to the static file server.

  A batch does the following:
  - flattens the page tree into a URL list;
  - renders those pages at most four at a time (`async.mapLimit`);
  - streams one JSON progress message per finished render;
  - once every render has succeeded, zips the folder and sends one
    `complete` message naming the archive.

  A single render (`getPDF`) decides:
  - where the PDF is written and what it is called;
  - the footer's running-head label and the library branding;
  - which failures are swallowed and which fail the render.
- **The export widget** (`public/ExportButtons/libreExportButtons.js`) runs in
  the library page. It does the following:
  - derives basic and full batch access from the Pro, Admin and group holders;
  - finds the book's entry in the downloads listing;
  - builds the PDF export menu (Full Book, Chapter, Page, Compile Book,
    Compile Full) and the prepared-download links;
  - sends compile requests to the batch server and reacts to the server's
    final JSON message;
  - moves focus between dropdown items with the arrow keys.

The model is written in Dafny. Its modules follow the program:

| module | file | what it covers |
|---|---|---|
| `Common`, `Text` | common.dfy, text.dfy | optional values, `String(n)`, JavaScript `indexOf`/`includes`/`startsWith`/`endsWith`/`replace`/`split`/`join` |
| `Intake` | intake.dfy | the request handler's routing, the single-page path parsing, `responseError`, the batch endpoint's origin and method checks |
| `PageTree` | page_tree.dfy | `addLinks` and the batch URL list |
| `Timing` | timing.dfy | `Math.round` of the progress percentage and of the elapsed time |
| `Render` | render.dfy | `getPDF`: output path, file name, footer label, branding key, failure handling, the kill timer, the single-page reply |
| `Dispatcher` | dispatcher.dfy | the batch run as a state machine: `mapLimit` with limit 4, progress messages, the abort on error, the zip and the `complete` message |
| `ExportAccess` | export_access.dfy | access flags, `getDownloadsAvailability`, `getBook` |
| `ExportMenu` | export_menu.dfy | query filtering for the page link, the PDF menu, the prepared-download links |
| `ExportBatch` | export_batch.dfy | `batch()`'s request or reopen, `downloadBatchOutput`, `optionKeyDownListener` |
| `Interplay` | interplay.dfy | the widget's links and requests read back by the server's router |

Some things are inputs rather than modelled behaviour:
- the browser's behaviour during a render: how navigation ended, what the
  in-page script found, whether the export succeeded and the elapsed time;
- the order in which renders finish, given as a sequence of events;
- `filenamify`, which is an uninterpreted function parameter.

Percentages are integers in tenths of a percent, and times are integers in
tenths of a second. The model rounds the exact quotient, half up, as
`Math.round` does on an exact value. The source computes with doubles, and
`count / length * 1000` can land just below a half: for 201 of 400 pages the
double is 502.49999999999994, so the source reports 50.2 where the model
gives 50.3. Other such pairs include 203 of 400 and 1001 of 2000.

Where the service's documentation and the code differ, the model follows the
code:
- A batch's archive is named by `filenamify(batchName)`, and each page's PDF
  by `filenamify` of its title, or of its URL when the title is absent or empty.
- The 40-second kill timer tests `!page.isClosed`, which reads a method
  reference, so the timer never closes a page (`Render.KillTimerCloses`).
- On the 403 and 406 paths, `responseError` is called with its arguments
  swapped, so the text becomes the status. Node's `writeHead` converts the
  status with `| 0`. Both texts have a space between two words, so they
  convert to NaN and then to 0, and `writeHead` throws on any status
  outside 100..999. So these refusals throw inside the handler, and nothing
  is written (`Intake.ForeignOriginReply`, `Intake.ForeignMethodReply`).
- The widget sends its compile request as a GET. The batch endpoint refuses
  it by that throwing path, so no widget click starts a batch
  (`Interplay.CompileRequestNeverStartsBatch`).
- `getDownloadsAvailability` is called without the Pro flag, so an entry
  tagged `luluPro` is never offered.

## Model

| member | source | states |
|---|---|---|
| Common.NatToString | public/ExportButtons/libreExportButtons.js:127 | `coverpage.id.toString()` is a non-empty digit string without a leading zero |
| Common.NatToStringRoundTrip | public/ExportButtons/libreExportButtons.js:127 | reading the rendered id back gives the id: the rendering loses nothing, so ids match as strings exactly when they are equal |
| Text.IndexOf | nodePrint/batchPrint.js:34 | the result is the first occurrence: the pattern occurs there and nowhere before; none means it occurs nowhere |
| Text.ReplaceFirst | nodePrint/batchPrint.js:24 | `replace` with a string pattern changes nothing when the pattern is absent; otherwise it swaps the first occurrence, the one with no occurrence before it |
| Text.Split | nodePrint/batchPrint.js:34 | a string without the separator splits into itself alone; one holding it splits into at least two fields |
| Text.SplitSingle | nodePrint/batchPrint.js:34 | a string splits into one field exactly when it holds no separator |
| Text.SplitFieldsFree | nodePrint/batchPrint.js:34 | no field of `split` holds the separator |
| Text.SplitJoin | nodePrint/batchPrint.js:34 | joining the fields of a split with the separator rebuilds the string |
| Text.JoinSplitChar | public/ExportButtons/libreExportButtons.js:520-527 | splitting on a character undoes joining with it when no part holds that character |
| Text.Before | nodePrint/batchPrint.js:189-197 | `split(sep)[0]` is a prefix free of the separator, followed by the separator whenever the string holds one |
| Text.BeforeIsFirstField | nodePrint/batchPrint.js:203-204 | `split(sep)[0]` is the first field of the full split |
| Intake.DropNocache | nodePrint/batchPrint.js:30-33 | an absent "?nocache" leaves the path as it is; otherwise exactly its first occurrence is cut out, and the "/url=" prefix is kept |
| Intake.RoutedPath | nodePrint/batchPrint.js:24 | a URL without "print/" is routed as it is; otherwise exactly its first "print/" is cut out |
| Intake.TargetSegment | nodePrint/batchPrint.js:34 | `split('/url=')[1]` is the text after the first "/url=" up to the next one, and holds no "/url=" |
| Intake.WholeSegment | nodePrint/batchPrint.js:34 | without a second "/url=", `split('/url=')[1]` is everything after the first |
| Intake.StripPdf | nodePrint/batchPrint.js:35-37 | one trailing ".pdf" is removed when present; otherwise the name is kept |
| Intake.StripPdfOnce | nodePrint/batchPrint.js:35-37 | a name with ".pdf" appended comes back unchanged, even when it already ends in ".pdf" |
| Intake.ParseSinglePage | nodePrint/batchPrint.js:28-37 | nocache is set exactly when "?nocache" appears; the target is the stripped segment after "/url=", which is the whole rest of the path when no second "/url=" follows; a path with neither "?nocache" nor a second "/url=" renders its stripped rest without nocache |
| Intake.RoutePrefixesDisjoint | nodePrint/batchPrint.js:28-54 | no path starts with both "/Libretext=" and "/url=" |
| Intake.StatusValue | nodePrint/batchPrint.js:140 | the status `writeHead` checks after its bitwise OR with 0: a number below 2^31 is itself; a text of 1 to 15 decimal digits is the number it spells, through `ToInt32`; a text with a space between two letters or digits converts to NaN and so to 0; every other text is left unread |
| Intake.ResponseError | nodePrint/batchPrint.js:138-143 | a missing or falsy status becomes 400; a number in 100..999 is the status; a text of 1 to 15 digits is the number it spells, kept when in 100..999 and otherwise making `writeHead` throw; a text with a space between two letters or digits also makes it throw, so nothing is written; the unread route arises exactly for the texts the status reading leaves unread; every written reply has a status in 100..999 and the body "Bad Request\n" followed by the message, or by the path when the message is missing or falsy |
| Intake.BatchRoute | nodePrint/batchPrint.js:54-126 | a batch starts exactly on a PUT from an origin ending in "libretexts.org"; a preflight is answered exactly on an OPTIONS from such an origin, and allows PUT for that origin; a missing origin header is the crash case; every other request with an origin throws in `writeHead`, and no reply is ever written |
| Intake.Handle | nodePrint/batchPrint.js:22-135 | a "/url=" path mentioning libretexts.org is parsed as a single page; static exactly when neither route matches, and then for the routed path itself; "/Libretext=" paths follow the batch checks |
| Intake.BatchIntake | nodePrint/batchPrint.js:54-126 | on the batch path, a render starts exactly for a PUT from an accepted origin |
| Intake.SinglePageFailureReply | nodePrint/batchPrint.js:48-50 | a failed single-page render is answered with status 500 and the body "Bad Request\nServer \n" followed by the error |
| Intake.ForeignOriginReply | nodePrint/batchPrint.js:123-125 | a foreign origin hands `writeHead` the status "CORS Error <origin>", so the handler throws and writes nothing |
| Intake.ForeignMethodReply | nodePrint/batchPrint.js:119-121 | another method hands `writeHead` the status "<METHOD> Not Acceptable", so the handler throws and writes nothing |
| Intake.OriginSuffixAdmitsLookalike | nodePrint/batchPrint.js:55 | the origin test is a bare suffix test, so "https://notlibretexts.org" may start a batch |
| PageTree.AddLinks | nodePrint/batchPrint.js:145-156 | the flattening has one link per node, and the first node's link comes first |
| PageTree.BatchList | nodePrint/batchPrint.js:73-74 | the batch list is the root followed by the flattened subpages, one entry per node |
| PageTree.CountBounds | nodePrint/batchPrint.js:145-156 | a forest has at least one node per root, and none exactly when it is empty |
| PageTree.CountAppend | nodePrint/batchPrint.js:145-156 | the node count is additive over sibling forests |
| PageTree.AddLinksAppend | nodePrint/batchPrint.js:148-153 | flattening distributes over sibling forests |
| PageTree.AddLinksSingle | nodePrint/batchPrint.js:149-152 | a node's link comes immediately before its whole subtree |
| PageTree.AddLinksCons | nodePrint/batchPrint.js:148-153 | the flattening is the first node's link, then its subtree, then its later siblings |
| PageTree.PreorderAt | nodePrint/batchPrint.js:145-156 | pre-order, node by node: the earlier siblings' links, then the node's link and subtree, then the later siblings |
| PageTree.FlattenWithStack | nodePrint/batchPrint.js:145-156 | an explicit-stack traversal produces exactly `addLinks`' order |
| Timing.RoundDiv | nodePrint/batchPrint.js:94 | `Math.round` of an exact quotient is the nearest integer, with halves rounded up |
| Timing.RoundDivBelow | nodePrint/batchPrint.js:94 | a rounded quotient below a bound |
| Timing.RoundDivAtLeast | nodePrint/batchPrint.js:94 | a rounded quotient at least a bound |
| Timing.PercentTenths | nodePrint/batchPrint.js:94 | the progress percentage lies in 0..100.0 and is 0 before any render |
| Timing.ElapsedTenths | nodePrint/batchPrint.js:100-104 | elapsed milliseconds rounded to the nearest tenth of a second |
| Timing.RoundDivMonotone | nodePrint/batchPrint.js:94 | rounding is monotone in the numerator |
| Timing.PercentMonotone | nodePrint/batchPrint.js:94 | a later progress message never reports less |
| Timing.PercentStrictlyIncreasing | nodePrint/batchPrint.js:94 | with at most 1000 pages every render raises the percentage |
| Timing.PercentCanStall | nodePrint/batchPrint.js:94 | with 3000 pages two consecutive messages both report 0.1% |
| Timing.PercentFullIff | nodePrint/batchPrint.js:94 | below 2000 pages, 100% is reported exactly when every page has rendered |
| Timing.PercentFullEarly | nodePrint/batchPrint.js:94 | with 2000 pages, 100% is reported one render early |
| Timing.PercentThreeTasks | nodePrint/batchPrint.js:94 | three pages report 33.3, 66.7 and 100 |
| Timing.ElapsedRounding | nodePrint/batchPrint.js:100-104 | elapsed-time rounding is monotone; 1249 ms is 1.2 s and 1250 ms is 1.3 s |
| Render.OutputDir | nodePrint/batchPrint.js:169-174 | no sub-directory for a single page; otherwise "libretexts/<dir>/" |
| Render.OutputPath | nodePrint/batchPrint.js:248 | the PDF is written under "./PDF/" and named "<name>.pdf"; a batch page goes under "./PDF/libretexts/", a single page directly in "./PDF/" |
| Render.NameSource | nodePrint/batchPrint.js:189-198 | the file name comes from the non-empty title, else from the URL |
| Render.FooterLabel | nodePrint/batchPrint.js:189-197 | the label is empty exactly when there is no title, no ':' or nothing before it; otherwise it is the ':'-free text before the first ':' followed by '.' |
| Render.BrandingKey | nodePrint/batchPrint.js:203-204 | the key exists exactly when the URL has at least three '/'-fields; it is the start of the host field up to its first '.', or the whole host when it has none |
| Render.LookUp | nodePrint/batchPrint.js:205-207 | a branding entry is present exactly when the library is in that table |
| Render.RenderPage | nodePrint/batchPrint.js:158-291 | a render succeeds exactly when the in-page script answered, the URL has a host segment and the export succeeded; on success the PDF goes to "./PDF/<dir>/<name>.pdf" first; on every path the page is closed and the timer cleared before the outcome is logged with the rounded time |
| Render.WriteOnlyOnSuccess | nodePrint/batchPrint.js:247-288 | a PDF is written exactly when the render succeeds |
| Render.NavigationNeverDecides | nodePrint/batchPrint.js:176-182 | a navigation time-out or error never changes the outcome |
| Render.HostSegment | nodePrint/batchPrint.js:203 | the third '/'-field of "scheme//host/rest" is the host |
| Render.SplitScheme | nodePrint/batchPrint.js:203 | the scheme is the first '/'-field |
| Render.SplitHost | nodePrint/batchPrint.js:203 | after the scheme come an empty field and the host |
| Render.SplitAfterSlash | nodePrint/batchPrint.js:203 | a '/'-free head is the first field of a split |
| Render.FirstSlash | nodePrint/batchPrint.js:203 | the first '/' of a '/'-free head followed by "/…" is at the head's end |
| Render.BrandingKeyOfHost | nodePrint/batchPrint.js:203-204 | the branding key is the host's first label |
| Render.BioHostLabel | nodePrint/batchPrint.js:204 | the first label of "bio.libretexts.org" is "bio" |
| Render.BioBrandingKey | nodePrint/batchPrint.js:203-204 | every page "https://bio.libretexts.org/<page>" is branded "bio" |
| Render.ChapterFooterLabel | nodePrint/batchPrint.js:189-197 | the title "Ch1: Intro" gives the label "Ch1." |
| Render.TitledPageScenario | nodePrint/batchPrint.js:158-291 | a titled page whose navigation timed out, on a library missing from both tables, still renders under its title's name, with label "Ch1." and no branding |
| Render.KillTimerCloses | nodePrint/batchPrint.js:163-166 | the kill timer never closes the page |
| Render.SinglePageReply | nodePrint/batchPrint.js:47-51 | a file is served exactly when the render succeeded; a failure is a 500 |
| Render.WrappedNamesAgree | nodePrint/batchPrint.js:49 | two "/PDF/<name>.pdf" paths agree exactly when the names do |
| Render.SinglePageServesUrlName | nodePrint/batchPrint.js:38-49 | the route serves the file named after the URL while the render wrote the one named after the title; they are the same file exactly when `filenamify` gives both the same name |
| Render.ServedReply | nodePrint/batchPrint.js:47-51 | intended behaviour: a file is served exactly when the render succeeded, and it is the file the render reports writing; a failure is a 500 whose body ends with the error |
| Render.ServedReplyServesWrittenFile | nodePrint/batchPrint.js:247-288 | intended behaviour: after a successful single-page render, the served path and the written path name the same file, whatever the title |
| Dispatcher.Replenish | nodePrint/batchPrint.js:88 | filling the pool keeps the batch invariant, starts tasks in index order up to the limit of 4, and leaves the pool full unless the list is exhausted |
| Dispatcher.Start | nodePrint/batchPrint.js:84-88 | a new batch runs exactly the first min(total, 4) tasks and has sent nothing |
| Dispatcher.Step | nodePrint/batchPrint.js:88-116 | a success sends one more progress message; a failure sends nothing, ends scheduling and records the error; the zip's callback sends the `complete` message and ends the response; messages are only appended |
| Dispatcher.Run | nodePrint/batchPrint.js:88-116 | any run of events keeps the invariant, only appends messages, and starts nothing after a failure |
| Dispatcher.Closed | nodePrint/batchPrint.js:108-115 | after the response has ended nothing further happens |
| Dispatcher.NoCompleteAfterFailure | nodePrint/batchPrint.js:97-98 | a failed batch never sends `complete` |
| Dispatcher.CompleteIsLast | nodePrint/batchPrint.js:108-115 | `complete` is the last message, after every progress message |
| Dispatcher.ProgressNonDecreasing | nodePrint/batchPrint.js:90-96 | progress messages never go down |
| Dispatcher.NoStallWithoutFailure | nodePrint/batchPrint.js:88-116 | without a failure, a batch with nothing running has finished and its final callback succeeded |
| Dispatcher.StartJob | nodePrint/batchPrint.js:70-74 | the batch covers the root and every subpage, and its archive name is `filenamify(batchName)` |
| Dispatcher.FolderPrefix | nodePrint/batchPrint.js:169-174 | a batch render's path starts with the batch folder |
| Dispatcher.RendersLandInZipFolder | nodePrint/batchPrint.js:72-108 | every batch render is written inside the folder that is zipped |
| Dispatcher.ThreeTaskBatch | nodePrint/batchPrint.js:84-116 | in any completion order, three pages send 33.3, 66.7, 100 and then `complete` with "Book.zip" |
| Dispatcher.ZipLast | nodePrint/batchPrint.js:108-115 | the zip callback appends `complete` |
| Dispatcher.ThreeFinished | nodePrint/batchPrint.js:88-104 | three successes in any order send the three progress messages and reach the final callback with the rounded time, leaving only the zip |
| Dispatcher.StartThree | nodePrint/batchPrint.js:88 | a three-page batch starts all three at once |
| Dispatcher.RunUnfold | nodePrint/batchPrint.js:88-116 | a run is its first step followed by the rest |
| Dispatcher.FailureStopsScheduling | nodePrint/batchPrint.js:88-98 | with five pages and a failure first, the fifth page never starts and only progress messages are ever sent |
| ExportAccess.ReadAccess | public/ExportButtons/libreExportButtons.js:476-480 | basic access exactly for Pro or Admin; full access exactly for Admin, or Pro with a privileged group; full implies basic |
| ExportAccess.GroupMatchIsSubstring | public/ExportButtons/libreExportButtons.js:480 | a group named "NotADeveloper" grants full access; "True" is not "true" |
| ExportAccess.FindEntry | public/ExportButtons/libreExportButtons.js:125-128 | `find` returns the first entry whose id or altID matches the cover |
| ExportAccess.ListingsFile | public/ExportButtons/libreExportButtons.js:116-118 | the Spanish library reads "home", and other libraries read "Courses" or "Bookshelves" by the page address |
| ExportAccess.ListingsURL | public/ExportButtons/libreExportButtons.js:116-119 | the listing is read from "DownloadsCenter/<subdomain>/<file>.json", where the file is "home" exactly for the Spanish library and otherwise "Courses" or "Bookshelves" |
| ExportAccess.DownloadsAvailability | public/ExportButtons/libreExportButtons.js:111-136 | an entry is offered only for a cover it matches, only when it has not failed and is not withheld from non-Pro users, and it is always the first match |
| ExportAccess.FirstMatchDecides | public/ExportButtons/libreExportButtons.js:125-134 | the first matching entry decides: it is offered exactly when it passes the filter, and a later match is never used |
| ExportAccess.LuluProAlwaysWithheld | public/ExportButtons/libreExportButtons.js:111-134 | as called by the widget, a `luluPro` entry is never offered |
| ExportAccess.BookLink | public/ExportButtons/libreExportButtons.js:62-69 | a link exists exactly with a cover page, and is the Finished folder "<subdomain>-<id>" followed by "/Full.pdf" |
| ExportMenu.NameValue | public/ExportButtons/libreExportButtons.js:520 | a query piece splits at its first '=' into name and value |
| ExportMenu.ParseQuery | public/ExportButtons/libreExportButtons.js:520 | every parameter read from a query is plain, and an empty query or a bare "?" gives none |
| ExportMenu.Serialize | public/ExportButtons/libreExportButtons.js:527-528 | the serialised query is empty exactly when no parameter is left |
| ExportMenu.JoinStartsWithFirst | public/ExportButtons/libreExportButtons.js:527 | a joined query starts with its first piece |
| ExportMenu.SerializeParseRoundTrip | public/ExportButtons/libreExportButtons.js:520-528 | parsing a serialised list of plain parameters gives the list back |
| ExportMenu.PiecesPlain | public/ExportButtons/libreExportButtons.js:527 | serialised pieces of plain parameters hold no '&' |
| ExportMenu.ParsePiecesRoundTrip | public/ExportButtons/libreExportButtons.js:520 | parsing the pieces of plain parameters gives them back |
| ExportMenu.RemoveName | public/ExportButtons/libreExportButtons.js:523 | `delete(name)` leaves no entry with that name, keeps every other entry, and adds nothing |
| ExportMenu.RemoveNameAppend | public/ExportButtons/libreExportButtons.js:523 | deleting from a joined list deletes from each part, so the survivors keep their order |
| ExportMenu.KeepCacheKeys | public/ExportButtons/libreExportButtons.js:518-526 | the intended filter keeps only "no-cache" and "nocache" entries |
| ExportMenu.KeepCacheKeysMembers | public/ExportButtons/libreExportButtons.js:518-526 | a parameter survives the intended filter exactly when it was present and is a cache key |
| ExportMenu.KeepCacheKeysIdempotent | public/ExportButtons/libreExportButtons.js:518-526 | filtering twice changes nothing |
| ExportMenu.LiveFilter | public/ExportButtons/libreExportButtons.js:520-526 | the filter as written, deleting during a live iteration, never grows the list and keeps only entries it was given |
| ExportMenu.RemoveKeepsCacheKeys | public/ExportButtons/libreExportButtons.js:523 | deleting a non-cache name leaves the cache keys untouched |
| ExportMenu.KeepAppend | public/ExportButtons/libreExportButtons.js:518-526 | the intended filter distributes over concatenation |
| ExportMenu.LiveFilterKeepsCacheKeys | public/ExportButtons/libreExportButtons.js:520-526 | the filter as written never loses a cache key |
| ExportMenu.LiveFilterSkipsNext | public/ExportButtons/libreExportButtons.js:520-526 | as written, the query "a=1&b=2" keeps "b=2", while the intended filter keeps nothing |
| ExportMenu.QueryPart | public/ExportButtons/libreExportButtons.js:527-529 | the query part is empty when nothing is kept, and is otherwise '?' followed by the serialised parameters |
| ExportMenu.PageQuery | public/ExportButtons/libreExportButtons.js:517-529 | intended behaviour: a page without a query string gets no query part; any other query part starts with '?' |
| ExportMenu.PageQueryOnlyCacheKeys | public/ExportButtons/libreExportButtons.js:517-529 | intended behaviour: the page link's query reads back as exactly the cache keys of the page's query |
| ExportMenu.PageQueryAsWritten | public/ExportButtons/libreExportButtons.js:517-529 | as written, a page without a query string also gets no query part |
| ExportMenu.PageQueryAsWrittenKeepsCacheKeys | public/ExportButtons/libreExportButtons.js:517-529 | as written, the link's query still holds every cache key of the page's query, in order |
| ExportMenu.ParsePiecesPlain | public/ExportButtons/libreExportButtons.js:520 | the pieces of a query parse to plain parameters |
| ExportMenu.PiecePlain | public/ExportButtons/libreExportButtons.js:520 | one '&'-free piece parses to a plain parameter |
| ExportMenu.SinglePageLink | public/ExportButtons/libreExportButtons.js:530-531 | the page link is the batch single-page prefix, the page address, then ".pdf" |
| ExportMenu.PagePdfLink | public/ExportButtons/libreExportButtons.js:517-531 | intended behaviour: the Page link is the single-page prefix, the page's origin and path, a query part that is empty or starts with '?' and reads back as exactly the page query's cache keys, then ".pdf" |
| ExportMenu.Opt | public/ExportButtons/libreExportButtons.js:501-567 | an option is listed exactly when its condition holds, and then once |
| ExportMenu.PdfMenu | public/ExportButtons/libreExportButtons.js:499-567 | Full Book exactly with a book link; Chapter exactly for a chapter; Page exactly with a page link; Compile Book exactly with basic access and some earlier option; Compile Full exactly when a recompile is allowed |
| ExportMenu.PdfMenuOrder | public/ExportButtons/libreExportButtons.js:499-567 | the options appear in the fixed order Full Book, Chapter, Page, Compile Book, Compile Full |
| ExportMenu.AppendHigherRank | public/ExportButtons/libreExportButtons.js:499-567 | appending later-ranked options keeps the order |
| ExportMenu.WidgetPdfMenu | public/ExportButtons/libreExportButtons.js:484-567 | the widget's menu offers the Full Book for a book link, Chapter for a topic guide without an entry, the (intended) Page link on a topic page, Compile Book for basic access after any of those, and Compile Full for full access with an entry |
| ExportMenu.CompileBookNeverFirst | public/ExportButtons/libreExportButtons.js:540-541 | Compile Book is never the only or the first option |
| ExportMenu.ChapterExcludesCompileFull | public/ExportButtons/libreExportButtons.js:487-567 | a chapter menu never offers Compile Full |
| ExportMenu.LuluProBookHidesCompileFull | public/ExportButtons/libreExportButtons.js:486-567 | a book whose entry is tagged `luluPro` never offers Compile Full |
| ExportMenu.LinkRoot | public/ExportButtons/libreExportButtons.js:586-589 | the download root is the Finished folder, alone for a missing or empty name; otherwise followed by the archive name with exactly its first "/Full.pdf" cut out, or the whole name when it has none |
| ExportMenu.DownloadLinks | public/ExportButtons/libreExportButtons.js:585-626 | five links, keyed full, lms, zip, bookstore, publication in that order, under the root or the bookstore |
| ExportMenu.FullDownloadMatchesBookLink | public/ExportButtons/libreExportButtons.js:585-595 | whether the listing names the folder "<subdomain>-<id>" or the PDF "<subdomain>-<id>/Full.pdf" inside it, the Full PDF download is the Full Book link |
| ExportMenu.NoSlashInKey | public/ExportButtons/libreExportButtons.js:67 | the folder key "<subdomain>-<id>" holds no '/' when the subdomain holds none |
| ExportMenu.NoFullPdfInKey | public/ExportButtons/libreExportButtons.js:588 | a '/'-free key holds no "/Full.pdf" |
| ExportMenu.StripFullPdf | public/ExportButtons/libreExportButtons.js:588 | removing "/Full.pdf" from "<key>/Full.pdf" gives the key |
| ExportMenu.MissingArchiveName | public/ExportButtons/libreExportButtons.js:586-616 | without an archive name the Full PDF link is ".../Finished//Full.pdf" and the bookstore link ends in "?undefined" |
| ExportBatch.BatchClick | public/ExportButtons/libreExportButtons.js:144-208 | a remembered file is reopened exactly when there is one; otherwise a GET goes to the batch path for the target with "?no-cache" and the extras, or for the page address |
| ExportBatch.DownloadBatchOutput | public/ExportButtons/libreExportButtons.js:173-197 | no message faults; "refreshOnly" shows "Refresh complete." and "createMatterOnly" shows "Done creating front/back matter."; an error message raises its text; a file name opens "Finished/<name>/Full.pdf"; anything else does nothing |
| ExportBatch.Remember | public/ExportButtons/libreExportButtons.js:191-196 | a finished compile replaces the remembered file with its location; any other reaction leaves the remembered file as it was |
| ExportBatch.MaintenanceBeforeError | public/ExportButtons/libreExportButtons.js:176-190 | the file name is checked before the error flag |
| ExportBatch.FinishedThenReopen | public/ExportButtons/libreExportButtons.js:144-195 | after a compile finishes, the next click reopens its file without a request |
| ExportBatch.CompleteMessageLocation | nodePrint/batchPrint.js:109-113 | the server's `complete` message makes the widget open "Finished/<name>.zip/Full.pdf" |
| ExportBatch.FindIndex | public/ExportButtons/libreExportButtons.js:432 | `findIndex` returns the first position holding the target, and none exactly when it is absent |
| ExportBatch.OptionKeyDown | public/ExportButtons/libreExportButtons.js:423-454 | an arrow key suppresses the default; from the target's first position, down focuses the next item and up the previous one, with no wrap-around; other keys and targets outside the list do nothing |
| ExportBatch.UpUndoesDown | public/ExportButtons/libreExportButtons.js:423-454 | among distinct items, up after down returns to the start |
| ExportBatch.FirstIndexOfDistinct | public/ExportButtons/libreExportButtons.js:432 | among distinct items an item's index is found exactly |
| Interplay.PrintStripped | nodePrint/batchPrint.js:24 | a path on the batch host loses its "print/" before routing |
| Interplay.ReadPlainPagePath | nodePrint/batchPrint.js:28-37 | the single-page path of a query-free page reads back as that page without nocache |
| Interplay.PageLinkRoutesToPage | public/ExportButtons/libreExportButtons.js:517-531 | the Page link of a query-free page is routed by the server to a render of exactly that page |
| Interplay.SinglePagePath | nodePrint/batchPrint.js:28-37 | the routed single-page path of a query-free page is parsed as that page |
| Interplay.CompileRequestNeverStartsBatch | public/ExportButtons/libreExportButtons.js:204 | the widget's GET to the batch path never starts a render: with no origin it is the crash case, and with one the handler throws in `writeHead` |
| Interplay.ClickShape | public/ExportButtons/libreExportButtons.js:204 | a compile request is the batch host followed by "/print/Libretext=..." |
| Interplay.BatchPathPrefix | nodePrint/batchPrint.js:54 | the routed compile path starts with "/Libretext=" |
| Interplay.NocacheQuery | public/ExportButtons/libreExportButtons.js:519-529 | the query "?nocache" becomes "?nocache=" in the page link |
| Interplay.ReadNocachePagePath | nodePrint/batchPrint.js:30-37 | "/url=<page>?nocache=.pdf" reads back as "<page>=" with nocache set |
| Interplay.EqualsTailNoUrl | nodePrint/batchPrint.js:34 | "<page>=.pdf" holds no "/url=" |
| Interplay.NocacheLinkKeepsEquals | public/ExportButtons/libreExportButtons.js:519-531 | the cache-bypass Page link is routed to a render of "<page>=" with nocache set, not of the page itself |
| Interplay.LinkShape | public/ExportButtons/libreExportButtons.js:530-531 | a page link is the batch host followed by "/print/url=<page><query>.pdf" |
| Interplay.NocachePagePath | nodePrint/batchPrint.js:28-37 | the routed cache-bypass path is parsed as "<page>=" with nocache set |

## Left out

- HTTP, file-system and process I/O are left out: writing headers and bodies,
  the static file server and its 404 page, `mkdirp`, `fs.stat`, and
  `console.log` apart from the render's log line. The model keeps the
  decisions and the messages they carry.
- The browser (puppeteer) is an input. Navigation, the in-page script, the PDF
  export and the render's header and footer markup are reduced to what they
  decide.
- `filenamify` and `zipFolder` are not modelled. `filenamify` is an
  uninterpreted parameter, and `zipFolder` is the `Zipped` event.
- The ETA text (`eta.format`) is left out. It depends on the clock and on an
  outside library.
- Floating point is not modelled. The percentage and the time are exact
  quotients rounded half up, in tenths. The source's doubles can differ where
  a quotient lands just below a half (see above).
- The single-page cache branch (nodePrint/batchPrint.js:43) is left out,
  because its condition ends in `&& false` and can never hold.
- A missing `origin` header makes `request.headers.origin.endsWith` throw.
  The model gives it the route `MissingOrigin`, and the crash itself is not
  modelled.
- An exception from the throw in the final callback
  (nodePrint/batchPrint.js:98) is modelled as the `Errored` final state. What
  it does to the process is not modelled.
- API/cas-bridge.js is not part of this model.
- The widget's other features are not part of this model:
  - the DOM construction of dropdowns and focus-out listeners;
  - the cover-page/pages request (`batchCover`);
  - the TOC, readability, DonorBox and Commons buttons;
  - `loadCoverpage`'s own lookup, which is an input `Option<Cover>`.
- The widget finds the last JSON object in the response text with a regular
  expression. That search is not modelled: the message found, or none, is an
  input.
- Listing `tags` are taken to be an array, so `includes` is membership. If
  `tags` were a string, `includes` would be a substring test.
- URLSearchParams parameters are plain: '+' decoding and percent-encoding are
  not modelled. `ExportMenu.SerializeParseRoundTrip` is stated for plain
  parameters only.
- Intake.ResponseError: a text status is read only when it is 1 to 15 plain
  decimal digits, or when it has a space between two letters or digits (NaN).
  Any other text, such as "1e2", " 404", "+404", "404.5" or "0x1F4", gives
  the route `UnreadStatus` and no status, because the full numeric-literal
  grammar of ECMA-262's StringToNumber is not modelled. The handler itself
  passes only numbers and the two texts with inner spaces.
- Timing.PercentTenths: states bounds only. The exact values are given by
  the lemmas about it. It rounds the exact quotient, so it does not follow the
  source's double arithmetic where that lands just below a half (201 of 400
  pages, for example).
- Timing.ElapsedTenths: takes whole milliseconds. `performance.now()` gives a
  fraction of a millisecond, which is not modelled.
- ExportMenu.LiveFilter: its contract states only that the list never grows
  and gains no entry. What it keeps is stated by `LiveFilterKeepsCacheKeys`
  and `LiveFilterSkipsNext`.
- ExportMenu.PagePdfLink: models the intended filter (see Findings). As
  written, the program keeps more: for the page query "?a=1&b=2" its link
  carries "?b=2". That behaviour is `ExportMenu.PageQueryAsWritten`, and
  `ExportMenu.PageQueryAsWrittenKeepsCacheKeys` states what it still keeps.
- PageTree.AddLinks: the tree is taken as well formed. A node without
  `children`, a child without `subpages`, or malformed JSON makes the source
  throw a TypeError, and that is not modelled. The keys of a `for … in` loop
  are taken in sequence order.
- Render.RenderPage: `browser.newPage()` (nodePrint/batchPrint.js:162) runs
  outside the `try`. If it fails, `getPDF` rejects without closing a page,
  clearing the timer or logging, and the model has no such outcome.
- Dispatcher.Step: the error argument of `zipFolder`'s callback
  (nodePrint/batchPrint.js:108) is ignored, so `complete` is sent even when
  zipping failed. The `Zipped` event carries no error, so this is modelled
  only in that `complete` always follows.

## Findings

| source | as written | input that shows it | evidently intended | confidence | as-written member | corrected member |
|---|---|---|---|---|---|---|
| public/ExportButtons/libreExportButtons.js:520-526 | deletes names from `URLSearchParams` while iterating `params.keys()`. That iterator is an index into the live list, so the entry after each deleted one is skipped. | page query "?a=1&b=2": deleting "a" moves "b" to index 0, and the iterator continues at index 1. The link keeps "?b=2". | drop every parameter except "no-cache" and "nocache" (the comment at line 517) | not executed | ExportMenu.LiveFilter (counterexample ExportMenu.LiveFilterSkipsNext) | ExportMenu.KeepCacheKeys (ExportMenu.KeepCacheKeysMembers, ExportMenu.PageQueryOnlyCacheKeys; used by ExportMenu.PagePdfLink) |
| nodePrint/batchPrint.js:38-49 | the single-page route serves "../PDF/" + `filenamify(url)` + ".pdf", while `getPDF` names the file after the page title when there is one (line 200) and returns that name (line 288), which the route ignores | a page whose title and URL give different `filenamify` names: the route serves a file that was never written (or an older copy of it) | serve the file `getPDF` reports writing | not executed | Render.SinglePageReply (counterexample Render.SinglePageServesUrlName) | Render.ServedReply (Render.ServedReplyServesWrittenFile) |
