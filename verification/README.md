# Just Scanner in Dafny

A Dafny model of the parts of Just Scanner that compute, and proofs of what they are for. One module stands for one
source file or one concern of it.

- **Session engine** (`src/scanner_core.cpp`): the plain PGM tokenizer, decoder and printer (`Pgm`), page validation
  (`Pages`), the crop, rotate and tone renderer (`Render`), the manifest printer and reader (`Manifest`,
  `ManifestReader`, `ManifestRoundTrip`), saving, crashing and loading (`SessionStore`), the session operations and
  every run of them (`SessionOps`, `SessionRuns`, and the object itself in `ScanSession`), whole lives of a session with
  work, saves, stops and reloads in any order (`SessionLife`), master names that are used up without being saved
  (`SpentNames`), sessions that show where the engine loses something (`Witnesses`), and the PDF writer with a reader
  that knows only the file format (`Pdf`, `PdfReader`, `PdfDocument`, `PdfLayout`, `PdfTexts`; section 7.5.4 of ISO 32000-1).
- **Shell preview** (`src/mock_gui.cpp`): the second, streaming PGM decoder (`GuiPgm`).
- **Worker** (`src/wia_com_worker.cpp`, `src/wia_worker_model.cpp`): a step system with one step for each critical
  section or unlocked action (`Worker`), what holds over every interleaving (`WorkerRuns`, `WorkerProgress`), and the
  object with one method for each step (`WorkerThread`, `WorkerLifecycle`). There is one controlling client for start and
  shutdown, and any number of submitters and cancellers. The backend may return any reply or throw.
- **Transfer accounting** (`src/wia_transfer_model.cpp`): `Transfer`, with unsigned wrap-around written out.
- **Network scanner codec** (`src/wsd_job_codec.cpp`): the position-driven multipart scanner (`Mtom`, `MtomRoundTrip`,
  and `MtomLimits` for the valid messages it gets wrong; RFC 2387 on section 5.1.1 of RFC 2046) and the job requests
  (`Soap`, `XmlText`, `SoapRoundTrip`).
- **Checks written twice** (`src/wsd_discovery_model.cpp`, `src/wsd_http_transport.cpp`): `Uri`.
- **Capabilities and discovery** (`src/wia_capability_model.cpp`, `src/wia_discovery_model.cpp`): `Capability`,
  `CapabilityMap`, `Discovery`.

What single operations do, in literal values, words, coordinates and conditions instead of in terms of the model's own
functions, stands in the modules `StoreLaws`, `ManifestLaws`, `PgmLaws`, `RenderLaws`, `SessionLaws`, `PdfLayout`, `PdfTexts`,
`WorkerReplies`, `TransferLaws`, `MtomIds`, `SoapTexts`, `UriLaws`, `CapabilityLaws` and `DiscoveryLaws`.

A loop or an object of the source is a method or a class here, proved equal to a specification function; the
properties are lemmas about that function. The classes `WiaTransferModel`, `WiaWorkerModel`, `WiaComWorker`, `Session`
and `WiaDiscoveryModel` have one method for each handler or step of the source, and each method's contract says that the
object's view ends up as the step function says; the table lists only a few of them. A byte string is a `string` with
one character per byte. A disk is a map from path to bytes on which a write may tear, a copy may tear and a rename is
atomic. `Text`, `Search` and `Arith` hold what several modules need of strings and arithmetic.

## Where the code does less than it seems to promise

Each item has its exact condition and a concrete failing case.

- A session with two pages of the same id can be saved but not loaded again; the round trip holds exactly for distinct
  ids (`ManifestRoundTrip.ParseRoundTrip`). On a session loaded from a foreign manifest `add_page` can produce such a
  pair (`SessionRuns.AddedIdIsFreshIffNumberIsFree`, shown by `Witnesses.ReusedIdIsLost`).
- A page may name `session.jscan.tmp` as its master. Saving then removes that master, and the saved session does not
  load (`SessionStore.SavedManifestLoads`, shown by `Witnesses.StageMasterIsLost`).
- A save copies even a corrupt current manifest over the backup, so it is crash safe exactly if the manifest that stands
  for the old session loads and no page of it lives in the stage file (`SessionStore.CrashSafeIff`, shown by
  `SessionStore.CorruptManifestCanCostTheBackup`).
- A derivative of a page loaded from a manifest may exceed the dimension limit of a new frame
  (`Render.DerivativeCanBeReimported`, shown by `Witnesses.WideDerivativeIsRefused`).
- A master that is published but not saved before the program stops uses up its name: the page can never be added, or the
  revision never be made, in any continuation (`SpentNames.NoneFollowsIff`, shown by `SpentNames.StoppedAddIsForGood` and
  `SpentNames.StoppedRescanIsForGood`).
- A failed transfer forgets why it failed: any further call makes it a protocol error (`Transfer.FailedForever`, shown by
  `Transfer.StrayCallHidesCancellation`).
- A cancel that `request_cancel` accepts after the worker has looked at the flag is dropped
  (`WorkerRuns.CancelIsHonouredIffInTime`, shown by `WorkerRuns.LateCancelIsDropped`), and publishing the running
  snapshot can hide an earlier cancel (`WorkerRuns.CancelStaysShownIff`, shown by `WorkerRuns.PublishOverwritesCancel`).
- The shell shows pictures that the session engine refuses (`GuiPgm.EngineAgreesIff`, shown by `GuiPgm.GuiAcceptsMore` and
  `GuiPgm.ShellIsLooser`).
- In a part without header lines the multipart decoder reads the body as headers, and may return body text as an image
  (`MtomLimits.RightForAllBodiesIff`, shown by `MtomLimits.BodyIsReadAsHeaders` and `MtomLimits.LongBodyIsRefused`). In a
  preamble it takes the mark for a delimiter wherever it stands in a line (`MtomLimits.RightForAllPartsIff`, shown by
  `MtomLimits.SeeHereIsRefused` and `MtomLimits.FirstPartIsSwallowed`). A part with headers and no body takes the next part
  for its body (`MtomLimits.BodylessPartIsMisread`), and blanks behind the boundary make the call fail
  (`MtomLimits.PaddedDelimiterIsRefused`).
- Discovery binds URIs with a query or a fragment, which the transport refuses (`Uri.BoundIsSafeIffNoQuery`, shown by
  `Uri.QueryIsBoundButUnsafe`).
- A prepared page count respects the reported maximum, but neither its minimum nor its step
  (`CapabilityMap.WrittenPagesAreAllowedIff`, shown by `CapabilityMap.PageBelowMinimumIsWritten`).

## Model

| member | source | states |
|---|---|---|
| `ManifestRoundTrip.ParseRoundTrip` | src/scanner_core.cpp:1023-1115 | For every session within the limits, reading the exact text that save prints gives the session back if its page ids are distinct, and fails otherwise. |
| `ManifestRoundTrip.VersionOneLoadsAsUpgraded` | src/scanner_core.cpp:1030-1096 | Every version 1 text, valid or not, with or without a last newline, loads exactly like the version 2 text with tone 0, 0 appended to its page records. |
| `Manifest.FieldRoundTrip` | src/scanner_core.cpp:164-210 | Decoding an encoded field gives it back, whatever bytes it has. |
| `SessionStore.Save` | src/scanner_core.cpp:815-892 | Saving ends with the specified disk and result for every failure of its steps, and the disks it passes through, torn writes and torn copies included, are exactly those that a stop can leave. |
| `SessionStore.CrashSafe` | src/scanner_core.cpp:833-892 | If the current manifest, or where there is none the backup, loads and its pages do not live in the stage file, then a save of any session, failing or stopped at any step, leaves a disk from which the old or the new session loads. |
| `SessionStore.CrashSafeIff` | src/scanner_core.cpp:833-892 | That condition is exact: for every session that save publishes, all disks that its save can be stopped at load the old or the new session if and only if the condition holds. |
| `SessionStore.CorruptManifestCanCostTheBackup` | src/scanner_core.cpp:872-879 | With a corrupt current manifest and a valid backup that loads, a save of any session can be stopped at a disk from which nothing loads. |
| `SessionStore.RefusedSaveIff` | src/scanner_core.cpp:865-870 | A session that is too large is refused after the stage file is written: every disk that its save can be stopped at loads what loaded before if and only if no page of the manifest that loads lives in the stage file. |
| `SessionStore.LoadAfterSave` | src/scanner_core.cpp:1117-1131 | After a completed save over a valid manifest: the new session loads if it is loadable, else the old one from the backup, else nothing; the backup parses to the old session. |
| `StoreLaws.SaveSucceedsIff` | src/scanner_core.cpp:815-892 | For every session, disk and failing step: a save succeeds exactly if its names and its time are well formed, it has at most 10000 pages, each within the listed limits and with its masters on the disk, at most 100000 earlier masters and a manifest of at most 1048576 bytes, and no step fails that is taken. |
| `ManifestLaws.LoadedIsSound` | src/scanner_core.cpp:1023-1115 | Whatever the text of a manifest, what it loads as has distinct page ids, counts within the limits and valid pages on this disk, so that it passes every check of a save. |
| `SessionLife.LifeIsSafe` | src/scanner_core.cpp:637-892 | Over any interleaving of work, saves, stops inside a step of either and reloads: what loads is the session of the last completed save or of one attempted since, never the backup and never nothing, and all its masters are there. |
| `SpentNames.NoneFollowsIff` | src/scanner_core.cpp:683-813 | In any life of a session folder whose saved pages are not ahead of the program's: a page, or the next page to add, never gets a further revision in any continuation if and only if that revision's master is on the disk already or the limit on pages or history is reached. |
| `SpentNames.StoppedAddIsForGood` | src/scanner_core.cpp:716-736 | With everything saved, the program stops after add_page has published its master: after any further work, saves, stops and reloads, the session has the number of pages it had, and every add_page of a valid frame fails with "master revision already exists". |
| `SpentNames.StoppedRescanIsForGood` | src/scanner_core.cpp:787-813 | The same for rescan: the page keeps its revision for ever, and every rescan of it with a valid frame fails with that error. |
| `SessionRuns.RunKeepsInv` | src/scanner_core.cpp:637-813 | The invariant holds after every sequence of operations on a new session. |
| `SessionRuns.RunThenSaveThenLoad` | src/scanner_core.cpp:815-892 | Whatever was done to a new session, within the size limits saving succeeds and loading gives that very session. |
| `SessionRuns.AddedIdIsFreshIffNumberIsFree` | src/scanner_core.cpp:716-736 | On a session from a foreign manifest, add_page keeps ids unique exactly if the next number is free. |
| `SessionLaws.RotatePageTurnsIt` | src/scanner_core.cpp:754-760 | For every session and every accepted rotate: the rendering of that page afterwards is its rendering before, turned by that angle, and a page that did not render still fails with the same error. |
| `SessionLaws.TwoRotationsAreOne` | src/scanner_core.cpp:754-760 | Two accepted rotations of a page leave the very session that one by their sum modulo 360 leaves, or the session as it was where the sum is a full turn. |
| `Witnesses.StageMasterIsLost` | src/scanner_core.cpp:833-892 | A session that loads and whose only page keeps its master in the stage file: saving it succeeds, and then nothing loads. |
| `Witnesses.ReusedIdIsLost` | src/scanner_core.cpp:716-736 | A session that loads and whose only page is called page-0002: add_page succeeds and uses that id again, saving succeeds, and what loads then is the session without the new page. |
| `Witnesses.WideDerivativeIsRefused` | src/scanner_core.cpp:291-299 | A page of width 200001 that loads and renders, and whose printed derivative is refused as a new frame. |
| `WorkerRuns.RepliesAreExact` | src/wia_com_worker.cpp:209-248 | Every promise carries exactly the reply its request is owed: cancelled if the backend never got it or a cancel came in time, else the sanitized reply of the backend. |
| `WorkerReplies.AnswersFieldByField` | src/wia_com_worker.cpp:223-248 | After any interleaving, every answer has the id and operation of its request, and: no success, "cancelled" and no payload if the request was never executed or a cancel came in time; else no success and "driver_failure" if the backend threw; else the success and payload of the backend, with no code on success, the code of the backend if it is one to 64 lower-case letters and underscores, and "driver_failure" in place of any other. |
| `WorkerReplies.ClientsSeeTheOperation` | src/wia_com_worker.cpp:126-167 | In every reachable state, the snapshot that clients read states the operation the worker is in, or idle or stopped, and differs from it only where a cancel is pending. |
| `WorkerRuns.CancelIsHonouredIffInTime` | src/wia_com_worker.cpp:236-246 | A cancel that request_cancel accepts decides the reply exactly if it comes before the worker looks at the flag; a later one is dropped, in every continuation. |
| `WorkerRuns.LateCancelIsDropped` | src/wia_com_worker.cpp:236-246 | A reachable run in which request_cancel succeeds and the reply of the backend is delivered all the same. |
| `WorkerRuns.AcceptedAreConserved` | src/wia_com_worker.cpp:112-124 | In every reachable state the accepted requests are those answered, in flight, taken for cancellation and queued, in this order; at most 64 are queued; each promise is set once, in order. |
| `WorkerRuns.NeverTerminates` | src/wia_com_worker.cpp:180-255 | In every reachable state the guard of the call the worker is about to make is met, so nothing throws inside the noexcept run(). |
| `WorkerRuns.ResourcesArePaired` | src/wia_com_worker.cpp:180-255 | Apartment and backend are opened and closed in pairs, the backend inside the apartment, and both are closed when the thread has returned. |
| `WorkerRuns.SnapshotIsHonest` | src/wia_com_worker.cpp:126-167 | In every reachable state, the published snapshot shows a cancel only while one is pending for the active request. |
| `WorkerRuns.ShutdownFinishes` | src/wia_com_worker.cpp:134-178 | After at most 78 worker steps, however interleaved with clients, shutdown has every accepted request answered, an empty queue, and start works again. |
| `WorkerProgress.AcceptedIsAnswered` | src/wia_com_worker.cpp:209-255 | Eight worker steps for an accepted request and for each unanswered one before it, and one more, are enough to have its promise set with the reply it is owed, however interleaved with clients and with or without a shutdown; that is never more than 521 steps. |
| `PdfReader.XrefFindsEveryObject` | src/scanner_core.cpp:1010-1019 | A reader that follows startxref lands on the table, and entry i of the table points at the bytes "i 0 obj". |
| `PdfDocument.DocumentIsRead` | src/scanner_core.cpp:958-1019 | A reader that gets only the bytes of a document, and goes from startxref over the table, /Root, /Pages, /Kids, /Contents and /Im0 to the streams, gets exactly the content and the pixels of every page, in order. |
| `PdfTexts.FileIs` | src/scanner_core.cpp:966-1019 | For every document that fits: the file header, then each object with its number, its body and its end, one behind the other without a gap, then the table with a free entry and twenty bytes for each object with its exact place, then the trailer. |
| `PdfDocument.ExportIsRead` | src/scanner_core.cpp:958-1019 | That reader gets from an export exactly the rendered image of every included page, in session order. |
| `PdfLayout.ExportIsLaidOut` | src/scanner_core.cpp:984-1019 | From the bytes of an export alone, a viewer that checks the version, the table, its size and its free entry, and the kind and links of every object finds for included page i: a gray picture of eight bits with the columns and rows of the rendered page, in /MediaBox and in the matrix the points of its width and then of its height, in this order. |
| `Pgm.PgmRoundTrip` | src/scanner_core.cpp:361-380 | Decoding a printed derivative gives back its width, height and every pixel. |
| `PgmLaws.DecodesIff` | src/scanner_core.cpp:361-380 | A text decodes at a size to given pixels exactly if its tokens are "P2", plain decimals for width, height and 255, and then one plain decimal for each pixel in order, and no more. |
| `GuiPgm.GuiRefinesCore` | src/mock_gui.cpp:326-353 | Every byte string the session engine decodes for a non-zero size is decoded by the shell to the same width, height and pixels. |
| `GuiPgm.EngineAgreesIff` | src/mock_gui.cpp:326-353 | For every byte string that the shell shows: the engine decodes it at the same size, and then to the same pixels, if and only if it has exactly a header and width * height samples, all plain decimals in range, with maximum 255. |
| `GuiPgm.ShellIsLooser` | src/mock_gui.cpp:336-348 | For every maximum up to 65535 and every sample up to it, with or without a sign before or a letter behind the numbers, the shell shows the scaled pixel, and unless all is plain and the maximum 255 the engine refuses it. |
| `GuiPgm.ShownPixel` | src/mock_gui.cpp:326-353 | For every text that the shell shows with a maximum m: pixel k is the one p with p * m <= 255 * s < (p + 1) * m for the k-th sample s behind the header, and the header states the size. |
| `Render.RenderedPixel` | src/scanner_core.cpp:388-442 | Every output pixel is the toned value of one master pixel inside the crop, at the place the rotation brings it from. |
| `RenderLaws.MasterPixelIsSeen` | src/scanner_core.cpp:388-442 | Every pixel (x, y) of the crop of a w x h page stands in the result at (h - 1 - y, x) after a rotation by 90, at (w - 1 - x, h - 1 - y) by 180, at (y, w - 1 - x) by 270 and at (x, y) by 0, as a gray value within one half of (p - 127.5)(100 + c)/100 + 127.5 + 2.55 b, cut at 0 and 255. |
| `Render.RotationsCompose` | src/scanner_core.cpp:754-760 | Rotating by a and then by b equals rotating by (a + b) mod 360. |
| `Render.DerivativeCanBeReimported` | src/scanner_core.cpp:444-457 | A printed derivative passes validate_frame exactly if it respects the dimension limit, and as a new default page it renders to the same image. |
| `MtomRoundTrip.DecodingInvertsEncoding` | src/wsd_job_codec.cpp:91-99 | For any parts and epilogue encoded with a safe boundary that does not follow a line end inside a body, behind a preamble that does not mention the mark, decoding gives what is to be extracted from the list of parts, if all parts up to the wanted one have header lines; later ones need none. |
| `MtomIds.IdFindsItsPart` | src/wsd_job_codec.cpp:91-99 | For every safe id and every such message of headed parts: asking for the id gives exactly the type and the bytes of the first part whose Content-ID is literally the id, or the id between angle brackets, with any spaces and tabs around it. |
| `MtomIds.UnknownIdFails` | src/wsd_job_codec.cpp:91-99 | Where no part has such a Content-ID, the answer is "missing_wsd_mtom_image". |
| `MtomLimits.RightForAllBodiesIff` | src/wsd_job_codec.cpp:97-97 | That condition is exact: for given header lines, decoding is right for every choice of bodies if and only if every part that the search for the id has to look at has header lines. |
| `MtomLimits.BodyIsReadAsHeaders` | src/wsd_job_codec.cpp:97-97 | A part without header lines whose body reads like headers with the wanted id: part of that body is returned as an image, though no part has the id, whatever parts are around it. |
| `MtomLimits.RightForAllPartsIff` | src/wsd_job_codec.cpp:96-97 | For every preamble of whole lines, none of which starts with the mark: decoding is right for all headed parts, ids and epilogues if and only if the preamble does not mention the mark, or the first mention ends a line and is followed by text that reads like a part without a usable id. |
| `MtomLimits.SeeHereIsRefused` | src/wsd_job_codec.cpp:96-97 | A preamble that mentions the mark with any more text behind it on the line makes the call fail, whatever the parts; two hyphens behind the mark only change the error. |
| `MtomLimits.BodylessPartIsMisread` | src/wsd_job_codec.cpp:97-97 | For every message whose first part has headers and no body, the call gives what is to be extracted if the next part, mark and headers and all, were the body of the first and were not a part itself. |
| `SoapRoundTrip.RetrieveFieldsSurvive` | src/wsd_job_codec.cpp:64-67 | For every accepted input, unique_xml_text reads back exactly the job id, token, document name, message id and address. |
| `SoapRoundTrip.RetrieveTagsOccurOnce` | src/wsd_job_codec.cpp:64-67 | Each of the 23 tags of a retrieve request occurs at exactly one place of its text: no accepted field contributes markup. |
| `SoapRoundTrip.TicketSurvives` | src/wsd_job_codec.cpp:55-63 | Every setting of an accepted scan ticket reads back from the create request. |
| `SoapTexts.CreateRequestText` | src/wsd_job_codec.cpp:55-63 | An accepted create request is exactly the listed text: every tag by its name and namespace, and in it "exif", "png" or "tiff-single-g4", "Platen" or "ADF", and "BlackAndWhite1", "Grayscale8" or "RGB24" for the settings of the ticket. |
| `SoapTexts.ReplyIsDecoded` | src/wsd_job_codec.cpp:71-90 | Every text of tags and character data that holds the message it relates to, a job number and a safe token once each, and its format once or not at all, is decoded to exactly these, whatever else stands in it but a document type or an entity. |
| `Transfer.RunKeepsAccounts` | src/wia_transfer_model.cpp:14-132 | After any sequence of calls, completed bytes are the sum of the completed page sizes; an open page holds current <= declared <= page limit, completed + declared <= total limit. |
| `TransferLaws.EveryCallOfARun` | src/wia_transfer_model.cpp:14-132 | In every state that calls can reach, each of the ten calls is accepted exactly at its moment and within its limits, written out in numbers without wrap-around, and then changes exactly the listed fields; otherwise the transfer fails with a protocol error, a limit or an invalid image, as listed, and keeps its counts. |
| `Transfer.NothingWraps` | src/wia_transfer_model.cpp:44-89 | No unsigned subtraction, addition or counter wraps, and in accept_chunk the first two guards follow from the third. |
| `Transfer.FailedForever` | src/wia_transfer_model.cpp:14-132 | A failed transfer stays failed and keeps its counts, whatever is called; it keeps its failure exactly until the next call, which makes it a protocol error. |
| `Transfer.StrayCallHidesCancellation` | src/wia_transfer_model.cpp:14-17 | A cancelled transfer reports its cancellation, and after any one further call a protocol error for ever. |
| `Uri.SafeIffMatchesOwnHost` | src/wsd_http_transport.cpp:51-70 | A URI is safe for the transport exactly if it has no query or fragment and discovery binds it to its own host. |
| `Uri.BoundIsSafeIffNoQuery` | src/wsd_discovery_model.cpp:136-169 | What discovery binds to a host is safe for the transport exactly if it has no query or fragment, and its host is that address. |
| `UriLaws.TransportTakesIff` | src/wsd_http_transport.cpp:51-70 | The transport accepts exactly the texts made of "http://" or "https://", four octets of one to three digits, a port of one to five digits from 1 to 65535 or none, and a path or nothing, without "?" and "#". |
| `UriLaws.DiscoveryBindsIff` | src/wsd_discovery_model.cpp:136-169 | Discovery binds exactly such texts with any rest that starts with "/", "?" or "#", to any text that is the same address. |
| `CapabilityMap.MapIsExact` | src/wia_capability_model.cpp:123-163 | Each source is listed at most once, and a profile is listed exactly if the first item of its category, the one with no item of that category before it, offers it. |
| `CapabilityLaws.DeviceIsOffered` | src/wia_capability_model.cpp:123-163 | For every device: each source is listed at most once, with exactly the values that the first item of its kind reports as settable, and it is listed if and only if nothing of the listed problems is wrong with that item. |
| `CapabilityMap.PreparedWritesAreAllowed` | src/wia_capability_model.cpp:165-183 | For any device and request, the values written are allowed by the metadata of the item they are written to, pages from 1 to the reported maximum; a request is refused exactly if no profile supports it; the range check never fails. |
| `CapabilityLaws.WritesAreTheRequest` | src/wia_capability_model.cpp:165-183 | For every device and request: without a profile of the source it is unavailable, with one that does not offer the settings they are unsupported, and otherwise resolution both ways, 2 for gray or 3 for colour, depth and pages are written as requested. |
| `CapabilityMap.WrittenPagesAreAllowedIff` | src/wia_capability_model.cpp:165-183 | For any device and any accepted feeder request: the page count written is one that the page property of the item allows if and only if the request is at least its minimum and a whole number of steps above it. |
| `CapabilityMap.PageBelowMinimumIsWritten` | src/wia_capability_model.cpp:113-119 | One page is accepted and written for a feeder that reports a minimum of at least two, and its property does not allow it. |
| `Discovery.ResolvesExactlyTheLatest` | src/wia_discovery_model.cpp:70-79 | After any refreshes, an id resolves exactly if it has the latest generation and is one of the latest public ids, and then to the raw id of its record; every other generation is stale. |
| `DiscoveryLaws.RefreshMeetsEveryRecord` | src/wia_discovery_model.cpp:33-68 | For every model and every list of records: a refresh takes the next generation, or fails when there is none; over 1024 records it lists nothing; otherwise it lists exactly the scanners with valid texts and an id not seen before, in order, each under the next public id that leads back to its raw id, and reports every other scanner, in order, with the first thing that is wrong with it. |
| `Discovery.RunsPublishAlike` | src/wia_discovery_model.cpp:33-68 | Two whole runs whose raw ids differ by such renamings publish the same at every refresh. |
| `Pgm.ReadWord` | src/scanner_core.cpp:344-353 | One token ends at the next blank or comment; a bad character or a 17th character refuses it: the loop computes exactly the first token of the remaining text. |
| `Pgm.ReadTokens` | src/scanner_core.cpp:331-359 | The one-pass tokenizer with its index computes the recursive tokenization of the text, comments and the limit on tokens included. |
| `Pgm.TokenCount` | src/scanner_core.cpp:331-359 | A text has at most one token for every two bytes, rounded up. |
| `Pgm.TokenGuardIsUnreachable` | src/scanner_core.cpp:356-356 | Within the file size limit the token-count guard never fires. |
| `Pgm.ReadPgm` | src/scanner_core.cpp:361-380 | decode_pgm yields exactly the samples behind a header that states the expected size and maximum 255, or the first error. |
| `Pgm.PrintPgm` | src/scanner_core.cpp:444-457 | The nested row and column loops print the specified text, or refuse an image above the size limit. |
| `Pgm.TokensOfPgmText` | src/scanner_core.cpp:444-457 | The tokens of a printed picture, header comment included, are P2, width, height, 255 and its samples in row order. |
| `PgmLaws.BlankIsSkipped` | src/scanner_core.cpp:340-343 | A blank in front of a text does not change its tokens. |
| `PgmLaws.CommentIsSkipped` | src/scanner_core.cpp:336-339 | Nor does a comment up to the end of its line. |
| `PgmLaws.WordIsToken` | src/scanner_core.cpp:344-357 | A word up to a blank, a comment or the end is the first token, if it has at most 16 characters from 0x21 to 0x7e; otherwise the text is refused. |
| `PgmLaws.NothingHasNoTokens` | src/scanner_core.cpp:331-359 | The empty text has no tokens. |
| `PgmLaws.DerivativeIs` | src/scanner_core.cpp:444-457 | A derivative is its header with a comment line and its rows as decimals with one blank between them, each on a line; above 1048576 bytes it is refused. |
| `GuiPgm.SkipBlanks` | src/mock_gui.cpp:306-315 | The skipping loop stops at the first byte that is neither blank nor in a comment. |
| `GuiPgm.NextToken` | src/mock_gui.cpp:305-324 | next_pgm_token moves the cursor past exactly one token and returns it, or nothing at the end. |
| `GuiPgm.ReadSamples` | src/mock_gui.cpp:342-348 | The sample loop pulls exactly width * height tokens, scaled from the stated maximum to 0..255. |
| `GuiPgm.DecodePreview` | src/mock_gui.cpp:326-353 | The streaming decoder with its cursor computes the specified picture, or nothing. |
| `GuiPgm.StoulAgrees` | src/mock_gui.cpp:336-338 | Where from_chars accepts a token, stoul yields the same number. |
| `GuiPgm.ScaledIs` | src/mock_gui.cpp:347-347 | Scaling rounds down exactly, is monotone, and takes 0 to 0 and the maximum to 255. |
| `GuiPgm.StoulIs` | src/mock_gui.cpp:336-338 | A number is read behind any blanks, with a sign or none, up to the first other character, up to 2^32 - 1; a minus sign counts down from 2^32. |
| `GuiPgm.GuiReadsTokens` | src/mock_gui.cpp:326-353 | The shell decodes every text whose tokens start as a plain PGM with maximum 255; what follows is ignored. |
| `GuiPgm.GuiAcceptsMore` | src/mock_gui.cpp:326-353 | A picture with one token too many is shown by the shell and refused by the engine. |
| `Render.CropImage` | src/scanner_core.cpp:392-404 | The crop loop of row slices yields exactly the pixels inside the crop rectangle. |
| `Render.RotateImage` | src/scanner_core.cpp:405-431 | The scatter loop over the source yields the rotated image, whose pixel (x, y) is defined by where it comes from. |
| `RenderLaws.TurnedPixel` | src/scanner_core.cpp:411-430 | Source pixel (x, y) of a w x h image stands at (h - 1 - y, x) after 90 degrees, at (w - 1 - x, h - 1 - y) after 180 and at (y, w - 1 - x) after 270, with the sides exchanged for 90 and 270. |
| `Render.TargetInjective` | src/scanner_core.cpp:411-429 | Different source pixels are written to different places of the target array. |
| `Render.EveryTargetWrittenOnce` | src/scanner_core.cpp:411-429 | Every place of the target array is written by exactly one source pixel. |
| `Render.ToneImage` | src/scanner_core.cpp:432-440 | The in-place tone loop yields the pointwise toned image. |
| `RenderLaws.ToneIsNearest` | src/scanner_core.cpp:432-439 | The toned value lies within one half of (p - 127.5)(100 + c)/100 + 127.5 + 2.55 b as a real number, or is 0 or 255 where that is outside. |
| `Render.FourQuarterTurns` | src/scanner_core.cpp:754-760 | Four quarter turns give the image back. |
| `Render.NeutralToneKeepsImage` | src/scanner_core.cpp:432-440 | Tone 0, 0 is the identity on images. |
| `Render.ToneIsMonotone` | src/scanner_core.cpp:432-440 | For contrast of at least -100, brighter input or more brightness never gives a darker output. |
| `Render.FlatTone` | src/scanner_core.cpp:432-440 | At contrast -100 all pixels become the same gray. |
| `Render.ToneCommutesWithRotation` | src/scanner_core.cpp:388-442 | Tone before rotation equals tone after rotation. |
| `Render.ToneCommutesWithCrop` | src/scanner_core.cpp:388-442 | Tone before crop equals tone after crop. |
| `Render.RenderPage` | src/scanner_core.cpp:388-442 | render_page yields the specified image of the page, or the first error on the way. |
| `Render.RotatedPageRendersRotated` | src/scanner_core.cpp:754-760 | For any crop, rotation and tone, rotating the page record turns its rendered image. |
| `Manifest.EncodeFieldLoop` | src/scanner_core.cpp:164-175 | The escaping loop computes the per-byte encoding. |
| `Manifest.DecodeFieldLoop` | src/scanner_core.cpp:190-210 | The unescaping loop computes the specified decoding, incomplete and malformed escapes included. |
| `ManifestLaws.PieceIsRead` | src/scanner_core.cpp:190-200 | A plain character stands for itself; a control character is refused. |
| `ManifestLaws.EscapeIsRead` | src/scanner_core.cpp:205-207 | "%" with two hexadecimal digits of either case stands for sixteen times the one plus the other. |
| `ManifestLaws.BrokenEscapeIsRefused` | src/scanner_core.cpp:202-205 | "%" without two hexadecimal digits behind it is refused. |
| `Manifest.PrintManifest` | src/scanner_core.cpp:837-864 | The nested loops over pages and their history print the specified manifest. |
| `ManifestLaws.PageRecordIs` | src/scanner_core.cpp:845-852 | The twenty fields of a page record, in their order, with "gray8" or "rgb24", the three names of the sources and four zeros for no crop. |
| `ManifestLaws.EscapeIs` | src/scanner_core.cpp:164-175 | One character of a field: itself, or for a control character, "%" or 0x7f the sign "%" and two upper-case hexadecimal digits. |
| `ManifestLaws.FieldsJoin` | src/scanner_core.cpp:164-175 | The encoding of two texts in a row is that of the one followed by that of the other. |
| `ManifestReader.ReadManifest` | src/scanner_core.cpp:1023-1115 | The line loop with its flags and counters computes the specified result: a session, or the first error. |
| `ManifestLaws.ManifestsHaveShape` | src/scanner_core.cpp:1030-1112 | Every text that is accepted is a header of version 1 or 2, one SESSION record, any PAGE and HISTORY records and END at the end, whatever the line ends. |
| `ManifestLaws.SignedNumberIs` | src/scanner_core.cpp:1084-1085 | A tone setting is read exactly as a minus sign or none and decimal digits. |
| `ManifestReader.ValidatePages` | src/scanner_core.cpp:1113-1113 | The final check of a loaded session succeeds exactly if every page is valid on this disk. |
| `StoreLaws.PageFitsIs` | src/scanner_core.cpp:826-826 | A page is valid exactly within the listed limits on its names, numbers, rotation, tone and crop, and with its master and every earlier one at a path inside the folder, on the disk. |
| `ManifestRoundTrip.EncodedIsClean` | src/scanner_core.cpp:164-175 | An encoded field has neither tabs nor line ends, so it stays one field of one line. |
| `ManifestRoundTrip.ReadPrintedPage` | src/scanner_core.cpp:1057-1096 | A printed PAGE record is read back as the same page without its history, unless its id is taken. |
| `ManifestRoundTrip.LoadPageLines` | src/scanner_core.cpp:1023-1115 | The printed lines of a page and its history add exactly that page, history in order. |
| `SessionStore.LoadReadsOnlyManifests` | src/scanner_core.cpp:1117-1131 | Loading depends on the two manifests and on which files exist, never on what the stage file holds. |
| `StoreLaws.SaveTouchesItsFiles` | src/scanner_core.cpp:833-892 | A save that succeeds leaves the printed text as session.jscan, the one before it as session.jscan.bak and no session.jscan.tmp; one that fails leaves session.jscan alone; no other file changes. |
| `StoreLaws.LoadPrefersTheCurrent` | src/scanner_core.cpp:1117-1131 | What session.jscan loads as, or else what session.jscan.bak loads as, said to be recovered, or else an error. |
| `StoreLaws.LoadSaveLoad` | src/scanner_core.cpp:815-892 | Whatever loads can be saved if its text is not too long, and loads again as itself if none of its pages lives in the stage file. |
| `SessionStore.SavedManifestLoads` | src/scanner_core.cpp:815-892 | A saved manifest loads as the saved session exactly if its ids are distinct and no page names the stage file as a master. |
| `SessionStore.FirstSaveIsCrashSafe` | src/scanner_core.cpp:833-892 | The first save of a session, stopped anywhere, leaves nothing to load or the new session. |
| `SessionStore.AnyRunLoads` | src/scanner_core.cpp:815-892 | However many saves complete, fail or crash, what loads afterwards is the first session or one of those saved, if each can be loaded. |
| `SpentNames.AheadStays` | src/scanner_core.cpp:683-892 | The saved pages are never ahead of the program's, whatever is done, saved, stopped and loaded, once they are not. |
| `SessionLife.FirstSaveBeginsLife` | src/scanner_core.cpp:637-892 | The first completed save of a session that was worked on in any way begins such a life. |
| `SessionOps.Collect` | src/scanner_core.cpp:743-751 | Collecting by id succeeds exactly if every id names a page, and gives pages with those ids in that order. |
| `SessionLaws.RotateDoes` | src/scanner_core.cpp:754-760 | rotate accepts 90, 180 and 270 for a page that is there, adds the angle to the rotation modulo 360, and changes nothing else. |
| `SessionLaws.SetCropDoes` | src/scanner_core.cpp:762-769 | set_crop accepts exactly a crop that is not empty and inside the page, stores it, and changes nothing else. |
| `SessionLaws.ClearCropDoes` | src/scanner_core.cpp:771-771 | clear_crop removes the crop of a page that is there, and changes nothing else. |
| `SessionLaws.SetToneDoes` | src/scanner_core.cpp:772-782 | set_tone accepts -100 to 100 each, stores brightness as brightness and contrast as contrast, and changes nothing else. |
| `SessionLaws.SetIncludedDoes` | src/scanner_core.cpp:783-785 | set_included stores the flag, and changes nothing else. |
| `SessionLaws.AddDoes` | src/scanner_core.cpp:716-736 | add_page succeeds exactly for a valid frame, with room, a free name and a working file system; it appends one page with the next number, the data of the frame, revision 1 and no edits, and writes its master. |
| `SessionLaws.RescanDoes` | src/scanner_core.cpp:787-813 | rescan succeeds exactly for a valid frame, a page within its limits, a free name and a working file system; the page takes the data of the frame and the next revision, keeps its old master last in the history and its flag, and loses its edits; no other page changes. |
| `SessionLaws.FrameIsValidIff` | src/scanner_core.cpp:291-300 | A frame is valid exactly with an identifier, the extension, the sizes and the format that are asked for, and a picture that decodes at its size. |
| `SessionLaws.Digits` | src/scanner_core.cpp:721-722 | A page or revision number is printed with four digits, or with as many as it needs. |
| `SessionOps.PageIdInjective` | src/scanner_core.cpp:716-736 | Different page numbers give different page ids. |
| `SessionOps.MasterNameIsSafe` | src/scanner_core.cpp:683-714 | A master name built from an identifier is a safe path directly under originals and never a stage file. |
| `SessionOps.MasterNameInjective` | src/scanner_core.cpp:716-736 | Page number and revision can be told from a master name. |
| `SessionRuns.ApplyKeepsInv` | src/scanner_core.cpp:716-813 | Each operation, accepted or refused, keeps: ids are a permutation of page-0001..page-N, revision is history length plus 1, masters have their names, every page is valid; and published files keep their bytes. |
| `SessionRuns.RefusedLeavesSession` | src/scanner_core.cpp:716-813 | A refused operation leaves the session as it was. |
| `SessionRuns.MastersAreDistinct` | src/scanner_core.cpp:683-813 | No two revisions of any pages share a master file, and all masters exist. |
| `SessionRuns.ReorderAcceptsIff` | src/scanner_core.cpp:738-752 | reorder accepts exactly as many ids as there are pages, if they are the ids of the pages. |
| `SessionRuns.ReorderIsRearrangement` | src/scanner_core.cpp:738-752 | An accepted order puts the pages where their ids stand. |
| `SessionRuns.ReorderIsPermutation` | src/scanner_core.cpp:738-752 | The reordered session holds the same pages, each as often as before. |
| `ScanSession.Session.Publish` | src/scanner_core.cpp:683-714 | Publishing stages and renames; it never replaces a master, and ends with the specified files and result for every failure. |
| `ScanSession.Session.Reorder` | src/scanner_core.cpp:738-752 | The collecting loop gives the specified order, or an error with the pages unchanged. |
| `ScanSession.Session.Rescan` | src/scanner_core.cpp:787-813 | Publishes a new revision, keeps the old master in the history and resets the edits, or changes nothing. |
| `Pdf.FilterIncluded` | src/scanner_core.cpp:960-963 | The filtering loop gathers exactly the included pages, in session order. |
| `PdfLayout.IncludedInOrder` | src/scanner_core.cpp:960-963 | What is exported are exactly the pages with the flag, each once, in session order. |
| `Pdf.AppendObject` | src/scanner_core.cpp:969-975 | Records the offset of an object and appends it, unless the limit leaves no room; the guard does not wrap for a body up to the limit. |
| `Pdf.RenderedIsSmall` | src/scanner_core.cpp:388-442 | A rendered page has few enough pixels that none of its three bodies reaches the range in which the guard would wrap. |
| `Pdf.AppendSheet` | src/scanner_core.cpp:986-1007 | The three objects of a page are appended under the numbers announced for it, each at its recorded offset. |
| `Pdf.AppendPages` | src/scanner_core.cpp:984-1008 | The page loop writes the objects of every page in order, or stops at the first page that fails to render or fit. |
| `Pdf.PrintTable` | src/scanner_core.cpp:1010-1019 | The table loop prints the recorded offsets as entries, then trailer and startxref. |
| `PdfTexts.CatalogText` | src/scanner_core.cpp:977-977 | The body of the catalog, character by character. |
| `PdfTexts.PageText` | src/scanner_core.cpp:992-996 | The body of a page: its width and height in points, and the numbers of the two objects behind it. |
| `PdfTexts.ContentText` | src/scanner_core.cpp:997-999 | The body of a content stream: its length, and the drawing over the whole page. |
| `PdfTexts.ImageText` | src/scanner_core.cpp:1000-1006 | The body of a picture: its size, its format, its length and the pixels. |
| `PdfTexts.TrailerText` | src/scanner_core.cpp:1018-1019 | The trailer with the number of entries, the catalog and the place of the table. |
| `Pdf.ExportPdf` | src/scanner_core.cpp:958-1019 | The export succeeds exactly if all included pages render and all objects fit, and then yields the specified text. |
| `PdfReader.OffsetFits` | src/scanner_core.cpp:1012-1017 | Every offset fits ten digits and every entry is 20 bytes long. |
| `PdfReader.KidsLeadToPages` | src/scanner_core.cpp:978-995 | /Kids, as a reader reads it, lists the page objects in session order, and the objects of page i are its page, its content and its image. |
| `PdfReader.ContentStream` | src/scanner_core.cpp:997-999 | The /Length of a content stream is exact. |
| `PdfReader.ImageStream` | src/scanner_core.cpp:1000-1007 | The /Length of an image stream is exact, and the stream is the rendered pixels. |
| `Transfer.StepKeepsAccounts` | src/wia_transfer_model.cpp:14-132 | Every call, accepted or rejected, keeps the counters equal to a ledger of the accepted sizes and below the limits. |
| `Transfer.ChunkAcceptedIffItFits` | src/wia_transfer_model.cpp:62-73 | A chunk is accepted exactly if it fits into what the open page still lacks. |
| `Transfer.OutcomeIsHonest` | src/wia_transfer_model.cpp:134-136 | A completed transfer has every requested page, or is a short feeder batch of at least one page. |
| `Transfer.WiaTransferModel.Create` | src/wia_transfer_model.cpp:7-12 | The constructor refuses exactly limits of zero and a page limit above the total limit, and otherwise makes a fresh transfer. |
| `Transfer.WiaTransferModel.AcceptChunk` | src/wia_transfer_model.cpp:62-73 | Adds an accepted chunk to the open page; a chunk out of sequence or beyond a limit fails the transfer. |
| `Transfer.WiaTransferModel.CompletePage` | src/wia_transfer_model.cpp:75-89 | Accepted exactly when the open page is complete and its image valid; counts the page and its bytes and closes it, or fails the transfer. |
| `WorkerLifecycle.OperationReturnsToIdle` | src/wia_worker_model.cpp:7-48 | An operation, cancelled at most once, ends where it began; shutdown and a second begin work only between operations. |
| `Worker.SanitizedIsProper` | src/wia_com_worker.cpp:224-234 | Whatever the backend returns or throws, the reply carries its request's id and operation, an empty code on success and a safe code on failure. |
| `WorkerReplies.ExecutedIsWhatReturned` | src/wia_com_worker.cpp:223-235 | What counts as executed is exactly what the backend returned for the request in hand, at that step and no other. |
| `WorkerReplies.CancelsInTime` | src/wia_com_worker.cpp:126-148 | A cancel counts as in time exactly if request_cancel, or the start of shutdown, meets a request that is taken and whose flag is not yet looked at. |
| `Worker.NextKeepsInv` | src/wia_com_worker.cpp:93-255 | Every step of a client or of the worker keeps the joint invariant of queue, promises, flags, locals and lifecycle. |
| `Worker.ExecKeepsInv` | src/wia_com_worker.cpp:93-255 | The invariant holds after every interleaving. |
| `WorkerRuns.SubmitAcceptsIff` | src/wia_com_worker.cpp:112-124 | A submission is accepted exactly if it is valid, the worker accepts work and the queue has room. |
| `WorkerReplies.SubmitAcceptsExactly` | src/wia_com_worker.cpp:34-124 | A submission is queued exactly with a number, at most 64 characters for the device, fewer than 64 in the queue, an accepting worker, and for each operation the fields it needs and no others; otherwise nothing changes. |
| `WorkerRuns.NothingAcceptedAfterStopping` | src/wia_com_worker.cpp:134-157 | Once stopping, nothing is accepted until the worker is started again. |
| `WorkerRuns.CancelReachesOnlyTheActive` | src/wia_com_worker.cpp:126-148 | A cancel can override only the request that was active when it was issued. |
| `WorkerRuns.CancelNeedsAnActiveRequest` | src/wia_com_worker.cpp:126-132 | The cancel flag implies an active request, a cancel without one changes nothing, and when a promise is set the published snapshot is idle. |
| `WorkerRuns.CancelStaysShownIff` | src/wia_com_worker.cpp:126-132 | A cancel still shows in the snapshot after the next worker step exactly if that step does not publish over it. |
| `WorkerRuns.PublishOverwritesCancel` | src/wia_com_worker.cpp:221-222 | A reachable state with a cancel pending that the published snapshot does not show. |
| `WorkerRuns.StoppingWorkerAdvances` | src/wia_com_worker.cpp:209-255 | While a client waits in the join of shutdown, the worker can always step, and each step decreases a rank. |
| `WorkerRuns.ClientsDoNotDelayShutdown` | src/wia_com_worker.cpp:112-157 | No action of another client changes that rank. |
| `WorkerRuns.ReturnedOwesNothing` | src/wia_com_worker.cpp:169-178 | When the worker has returned, the queue is empty and every accepted request is answered. |
| `WorkerThread.WiaComWorker.Submit` | src/wia_com_worker.cpp:112-124 | Queues the request in the object exactly as the step system says and keeps the invariant. |
| `WorkerThread.WiaComWorker.BeginShutdown` | src/wia_com_worker.cpp:134-150 | Stops acceptance and cancels the active request, or closes a worker without a thread. |
| `WorkerThread.WiaComWorker.Take` | src/wia_com_worker.cpp:209-219 | Takes the oldest request and clears the cancel flag, or leaves the loop when stopping. |
| `WorkerThread.WiaComWorker.LookAtFlag` | src/wia_com_worker.cpp:236-239 | Replaces the reply by a cancellation exactly if the flag is set. |
| `WorkerThread.WiaComWorker.AnswerNextCancelled` | src/wia_com_worker.cpp:175-177 | Answers the next request taken away as cancelled, or ends the loop. |
| `Mtom.DecodeRetrieveResponse` | src/wsd_job_codec.cpp:91-99 | The decoder computes the specified result, errors in their order included. |
| `MtomIds.RefusedOutright` | src/wsd_job_codec.cpp:92-96 | The four refusals before any part is looked at, in their order and with their codes. |
| `MtomIds.BracketedIdFails` | src/wsd_job_codec.cpp:95-95 | Asking with angle brackets in the id fails, whatever the message. |
| `MtomIds.BadTypeIsRefused` | src/wsd_job_codec.cpp:97-97 | A part that the id finds and whose Content-Type is not safe is refused. |
| `Mtom.ScanLoop` | src/wsd_job_codec.cpp:97-98 | The loop that moves its position forward computes the specified scan and terminates, since the position strictly advances. |
| `MtomRoundTrip.BlockEndsAtBlank` | src/wsd_job_codec.cpp:97-97 | In a part of non-empty header lines, the first empty line found is the end of the header block. |
| `MtomRoundTrip.HeaderOfBlock` | src/wsd_job_codec.cpp:32-41 | The substring search in the joined lines reads the first later line with the name, else the first line. |
| `MtomRoundTrip.HeaderIsRead` | src/wsd_job_codec.cpp:32-41 | A header in any line and with any blanks around its value is read back exactly, if its name comes once. |
| `Search.NoStraddling` | src/wsd_job_codec.cpp:97-97 | A delimiter, whose first character does not come again in it, is never found across the end of a body and the separator. |
| `MtomRoundTrip.ScanFirstPart` | src/wsd_job_codec.cpp:97-97 | One turn on encoded parts of which the first has header lines stops at that part or moves exactly to the next delimiter. |
| `MtomLimits.LongBodyIsRefused` | src/wsd_job_codec.cpp:97-97 | A first part without header lines, with one line of more than 16384 bytes as its body, makes the call fail, whatever follows. |
| `MtomLimits.FirstPartIsSwallowed` | src/wsd_job_codec.cpp:96-97 | A preamble that mentions the mark at the end of a line and has its next empty line at its own end: for every first part, headed or not, and all headed parts behind it, the first part, mark and headers and all, is taken for the body of what stands between, and decoding goes on behind it. |
| `MtomLimits.BodylessLastPartIsRefused` | src/wsd_job_codec.cpp:97-97 | A message of one part with headers and no body, and no delimiter in the epilogue, makes the call fail. |
| `MtomLimits.PaddedDelimiterIsRefused` | src/wsd_job_codec.cpp:97-97 | Blanks behind the boundary on the first delimiter line make the call fail, whatever follows. |
| `MtomRoundTrip.ExtractedIff` | src/wsd_job_codec.cpp:97-98 | An image results exactly if the first part with the wanted id has a safe content type and no header block up to it is too long; it is that type with the exact bytes of that part. |
| `MtomRoundTrip.ScannedBytesStandInText` | src/wsd_job_codec.cpp:97-97 | For any message, well-formed or not, returned bytes stand in it between an empty line and the next delimiter, with a safe content type. |
| `MtomRoundTrip.QuotedBoundaryIsRead` | src/wsd_job_codec.cpp:93-94 | A quoted boundary parameter is read as written. |
| `MtomRoundTrip.PlainBoundaryIsRead` | src/wsd_job_codec.cpp:93-94 | A plain boundary parameter is read up to the next semicolon. |
| `XmlText.OccursExactlyAtMarks` | src/wsd_job_codec.cpp:42-53 | In a text of markup and character data without "<", markup occurs exactly where a segment starts with it. |
| `XmlText.ReadsUniqueText` | src/wsd_job_codec.cpp:42-53 | Where a start tag comes once, unique_xml_text gives the text behind it exactly if the next tag is its end tag and the text is neither empty nor too long. |
| `SoapTexts.MarkHasToComeOnce` | src/wsd_job_codec.cpp:42-47 | A text is refused where the start tag is missing, and where it comes a second time. |
| `SoapRoundTrip.PrintedInjective` | src/wsd_job_codec.cpp:23-31 | Different tags print differently, the envelope with its namespaces included. |
| `SoapRoundTrip.EnvelopedIsGood` | src/wsd_job_codec.cpp:23-31 | An envelope around a body with other tags, each once, has each of its tags once. |
| `SoapRoundTrip.ReadsAddressing` | src/wsd_job_codec.cpp:23-31 | Message id, address and action read back from any request. |
| `SoapRoundTrip.RetrieveIsEncodedIff` | src/wsd_job_codec.cpp:64-67 | A retrieve request is encoded exactly for valid limits, a non-zero job id, and a safe token, name, address and message id. |
| `SoapTexts.RetrieveRequestText` | src/wsd_job_codec.cpp:64-67 | An accepted retrieve request is exactly the listed text. |
| `SoapTexts.CancelRequestText` | src/wsd_job_codec.cpp:68-70 | An accepted cancel request is exactly the listed text. |
| `SoapTexts.TagsFillTheText` | src/wsd_job_codec.cpp:23-31 | Any such text holds its tags and texts in order, from its first character to its last, with nothing between them. |
| `SoapTexts.CreateIsEncodedIff` | src/wsd_job_codec.cpp:55-63 | A create request is made exactly for usable limits, 50 to 2400 dots both ways, one image up to the limit, and an address and an id of printable characters other than the five special ones. |
| `SoapTexts.JobRequestsAreEncodedIff` | src/wsd_job_codec.cpp:64-70 | The same for the other two requests, with a job number other than 0 and a token and a document name of such characters. |
| `SoapRoundTrip.CancelFieldsSurvive` | src/wsd_job_codec.cpp:68-70 | Job id, message id and address read back from a cancel request. |
| `SoapRoundTrip.CreatedJobIsUsable` | src/wsd_job_codec.cpp:71-90 | A reply that is decoded is correlated, and its credentials pass the retrieve and cancel encoders. |
| `SoapTexts.ReplyIsRefused` | src/wsd_job_codec.cpp:71-74 | A reply that is empty, too long, or declares a document type or an entity is refused. |
| `SoapTexts.DecodedStandsInText` | src/wsd_job_codec.cpp:75-90 | Whatever is decoded stands in the reply: the message it relates to, the job number as plain digits, a safe token and the format. |
| `Uri.ReadOctet` | src/wsd_discovery_model.cpp:121-127 | The digit loop accepts exactly one to three digits with a value up to 255, and yields that value. |
| `Uri.ParseIpv4` | src/wsd_discovery_model.cpp:110-134 | Accepts exactly four octets with dots between them and yields their 32-bit address, without wrapping. |
| `Uri.IsIpv4Literal` | src/wsd_http_transport.cpp:31-49 | Accepts exactly the same texts as parse_ipv4. |
| `Uri.PrintedAddressIsRead` | src/wsd_discovery_model.cpp:110-134 | All 2^32 addresses are read back from dotted decimal. |
| `UriLaws.AddressIff` | src/wsd_discovery_model.cpp:110-134 | A text is accepted as an address exactly if it is four octets of one to three digits with dots between, and then it is their 32-bit value. |
| `Uri.CheckDiscoveryPort` | src/wsd_discovery_model.cpp:152-164 | The digit check and the loop that folds the digits from the left accept exactly one to five digits with a folded value from 1 to 65535; the loop stays below 100000. |
| `Uri.CheckTransportPort` | src/wsd_http_transport.cpp:62-68 | The transport's loop accepts exactly one to five digits whose decimal value is from 1 to 65535; it stays below 100000. |
| `Uri.AuthoritiesAgree` | src/wsd_http_transport.cpp:58-68 | The two checks of host and port, each with its own port loop, accept the same authorities. |
| `Uri.CheckTransportHost` | src/wsd_discovery_model.cpp:136-169 | Computes the specified match between a URI and a remote address. |
| `Uri.CheckTransportUri` | src/wsd_http_transport.cpp:51-70 | Computes the specified safety of a URI. |
| `Uri.QueryIsBoundButUnsafe` | src/wsd_discovery_model.cpp:136-169 | For every address, a URI with a query right behind the host is bound by discovery and refused by the transport. |
| `Capability.CollectAllowed` | src/wia_capability_model.cpp:14-33 | Computes the specified list for every property shape, or the issue. |
| `Capability.AllowedAreExact` | src/wia_capability_model.cpp:14-33 | The list is accepted exactly for usable metadata, and holds in strictly ascending order, at most 256 of them, exactly the values the metadata allows. |
| `CapabilityLaws.ValuesAre` | src/wia_capability_model.cpp:14-33 | A property gives its issue exactly unless it is readable and one value, a list of 1 to 256 values or a range of at most 256 values; then exactly the values the device can be set to, ascending. |
| `Capability.BinarySearch` | src/wia_capability_model.cpp:43-43 | On an ascending list the halving search finds a value exactly if it is there. |
| `Capability.IntersectResolutions` | src/wia_capability_model.cpp:35-49 | The loop over x with a binary search in y computes the specified intersection. |
| `CapabilityMap.ResolutionsAreExact` | src/wia_capability_model.cpp:35-49 | Offered resolutions are exactly the values both axes allow between 50 and 9600, ascending; the item is refused exactly if there is none. |
| `CapabilityMap.ColorsAreExact` | src/wia_capability_model.cpp:51-63 | Gray and colour are offered exactly if the data type property allows them. |
| `CapabilityMap.CollectBitDepths` | src/wia_capability_model.cpp:65-76 | The filtering loop computes the known depths among the allowed ones. |
| `CapabilityMap.BitDepthsAreExact` | src/wia_capability_model.cpp:65-76 | Offered depths are exactly the known ones the property allows. |
| `CapabilityMap.BuildProfile` | src/wia_capability_model.cpp:97-106 | Computes the specified profile, or the first issue. |
| `CapabilityMap.ProfileIsExact` | src/wia_capability_model.cpp:97-106 | A profile offers exactly what the metadata of its item allows, and pages up to the reported maximum. |
| `CapabilityLaws.ProfileIsAsReported` | src/wia_capability_model.cpp:97-106 | Each field of a profile by what the properties of its item report, between 50 and 9600 dots, with gray for 2 and colour for 3, the depths 1, 8, 16, 24 and 48, and at most 10000 pages. |
| `CapabilityLaws.ProfileOrProblem` | src/wia_capability_model.cpp:97-106 | There is a profile exactly if none of the listed problems is met, and otherwise the first of them is the issue. |
| `CapabilityMap.MapCapabilities` | src/wia_capability_model.cpp:123-163 | The loop with its flags computes the specified profiles and issues, in order. |
| `CapabilityMap.MapFeeder` | src/wia_capability_model.cpp:141-156 | The feeder branch adds a simplex and maybe a duplex profile, and an issue ends it after what was added before. |
| `CapabilityLaws.DuplexIsOffered` | src/wia_capability_model.cpp:141-156 | Both sides are offered exactly if the first feeder has a profile and bit 2 of its handling flags. |
| `CapabilityLaws.BitsAre` | src/wia_capability_model.cpp:147-150 | The two bits of the flags, by remainders. |
| `CapabilityLaws.DeviceIssuesAre` | src/wia_capability_model.cpp:135-162 | An issue is reported exactly if an item raises it, or if there is neither a flatbed nor a feeder. |
| `CapabilityLaws.InvalidDeviceIsNotMapped` | src/wia_capability_model.cpp:125-128 | A device without an id of 1 to 64 characters gets that one issue and no profile. |
| `CapabilityMap.DisallowedPagesAreWritten` | src/wia_capability_model.cpp:78-86 | For any minimum, maximum and step that a feeder may report, a device for which every count from 1 to the maximum is accepted and written, whether the property allows it or not. |
| `CapabilityMap.AcceptedCouldBeRequested` | src/wia_capability_model.cpp:185-198 | Settings read back are accepted exactly if they could have been requested, and count as coerced exactly if they differ from the request. |
| `CapabilityLaws.ReadbackIsPassedOn` | src/wia_capability_model.cpp:185-198 | What is accepted is exactly what was read back, field by field, with the flag that says whether any differs. |
| `Discovery.OpaqueIdInjective` | src/wia_discovery_model.cpp:25-29 | Different ordinals give different public ids. |
| `Discovery.CandidatesMirrorAccepted` | src/wia_discovery_model.cpp:47-66 | Published devices and kept raw ids are those of the accepted records, first of each valid raw id with valid texts, in order. |
| `Discovery.WiaDiscoveryModel.Refresh` | src/wia_discovery_model.cpp:33-68 | The loop publishes and keeps exactly what is specified, under the next generation. |
| `Discovery.PublishedHidesRawIds` | src/wia_discovery_model.cpp:33-68 | Raw ids that differ by an injective renaming that keeps validity do not change what a refresh publishes. |

## Left out

- File system: paths are strings in the POSIX spelling, so `a//b` and `a/b` are different files, and links, reparse
  points, drive types and document names outside ASCII are not modelled. The Windows branch of the rename is covered
  only as an atomic rename.
- `export_included_pgm` and `export_included_wic`: the PGM text and the rendering are modelled, the choice of file names
  and the WIC encoder are not.
- Pdf.ExportPdf: stops at the bytes of the document; the check of the file extension and the publication of the bytes
  are not modelled.
- Page sizes in the PDF: what `pdf_number` prints is an arbitrary string of at most 320 characters.
- MtomIds.IdFindsItsPart: for parts in which Content-ID and Content-Type come once each; where a name comes more often,
  `MtomRoundTrip.HeaderOfBlock` says which line is read.
- PdfDocument.DocumentIsRead: the printed sizes are assumed to hold no blank, slash or line end, as a printed number does;
  the reader takes each dictionary to stand on one line with single blanks, as the writer prints it. The same holds for
  `PdfLayout.ExportIsLaidOut`.
- Tone: the `double` arithmetic is one exact fraction, rounded half away from zero; a binary rounding error at a tie is
  not modelled.
- Torn writes and copies: a write or copy that is stopped may leave any content at all, more than a real
  disk does.
- Transfer and worker: which message an exception carries is not modelled, only that the call is refused.
- Worker: condition variables are waits on their predicate; a thread that cannot be created and memory exhaustion are
  not modelled, and neither are two controlling clients at once. The payload of a reply is one number.
- WorkerRuns.ShutdownFinishes: assumes that `execute` returns, since the backend is foreign code; so does
  `WorkerProgress.AcceptedIsAnswered`.
- MtomRoundTrip.DecodingInvertsEncoding: header lines are not empty and hold no carriage return, so folded and malformed
  header fields are not encoded. Parts without header lines and preambles that mention the mark are valid too (sections
  5.1 and 5.1.1 of RFC 2046), and the decoder fails on them; among the messages of this encoding, `MtomLimits` says exactly
  when.
- MtomRoundTrip.ScanFirstPart: only for a first part with header lines; `MtomLimits.BodyIsReadAsHeaders` and
  `MtomLimits.LongBodyIsRefused` show what happens to one without.
- Multipart messages outside that encoding: a part without a body and blanks behind the boundary have lemmas of their own in
  `MtomLimits`, but only where they come first; header names in another case, such as `Content-Id`, mean the same in mail
  headers and are not recognised by the decoder, which is not stated.
- MtomLimits.RightForAllBodiesIff: the two equivalences quantify over the bodies and over the parts, since a single
  message of the failing kind can still give the right answer by chance.
- SoapTexts.ReplyIsDecoded: for replies that are tags and character data, in which each of the elements has its text and then
  its own end tag; a reply that repeats the text of a start tag inside character data is not well-formed and is not covered.
- XML readers, the endpoint bookkeeping of `WsdDiscoveryModel` and the codec in `src/wsd_soap_codec.cpp` depend on an XML
  reader that is not part of this model.
- `WsdJobModel`, `MockScanner`, `src/scanner_backend_policy.cpp`, `src/wia2_backend.cpp`, COM and WinHTTP: small tables,
  a smaller state machine of the kind of the transfer model, or foreign calls.
- The windows, dialogs and painting of `src/mock_gui.cpp`.
