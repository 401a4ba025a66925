# Money Machine: a Dafny model of its protocols, codecs and gates

Money Machine builds Notion products and Etsy drafts under strict write control.
This project models the parts whose correctness spans many functions or whole
runs, and proves what they promise.

- **The external-effect protocol** (`Effect*.dfy`). `SqlDraftEffects.execute`
  performs one provider write per idempotency key, across processes that crash,
  lose their lease or lose a response. `EffectTables` has the rows of one key and
  each transaction as a function; `EffectStore` is the database as a class whose
  methods are those transactions; `EffectProtocol` is a transition system over any
  number of executors; `EffectInvariant` is its inductive invariant; `EffectRuns`
  has the theorems over every run; `EffectSpent` follows the right to create after
  a request whose fate is unknown; `EffectProgress` proves that an execution that can
  finish does; `EffectOverlap` is the run in which an accepted id disappears from the
  latest attempt.
- **PNG and PDF predictor codecs** (`Png*.dfy`, `PdfPredictor.dfy`). In-place
  filter loops, the two decoders, the canonical encoder and the lineage chunk.
  `PngPixels.dfy` says what they do with whole files, byte by byte; `PngExact.dfy`
  says of any bytes at all whether they decode.
- **The PDF object graph** (`PdfGraph.dfy`, `PdfLinks.dfy`). The recursive checker
  with its seen set of (object, role) pairs, and the link extractor that relies on
  it. `PdfRules.dfy` writes their rules out key by key, `PdfTree.dfy` says when the
  page tree can be walked. `PdfFarAnnot.dfy` and `PdfBareLink.dfy` are documents on which the two do not
  fit together, built on the one-page frame of `PdfSmallDoc.dfy`.
- **Fixed points and greedy algorithms**: stale assets (`AssetLineage.dfy`),
  portfolio decisions (`Portfolio.dfy`, `PortfolioTable.dfy`), caption wrap (`CaptionWrap.dfy`), frame
  painting and scene markers (`FramePaint.dfy`), link alignment
  (`LinkMatch.dfy`), the live clock (`LiveClock.dfy`, `LiveMeasure.dfy`), the
  tagged JSON codec (`FixtureCodec.dfy`), and the sandbox page ledger
  (`SandboxLedger.dfy`, `SandboxCalls.dfy`, `SandboxMeaning.dfy`, `SandboxTree.dfy`,
  `SandboxRun.dfy`). `Sorting.dfy` is the sort two of them use; `Splicing.dfy` says
  by positions that a sequence is several parts one after another.

`dafny verify dfyconfig.toml` checks everything.

Loops and methods are proved equal to functions on values, and those functions are
then described by laws that do not name them: `ConfirmMeans`, `UnfilterObeys`,
`DecodesExactly`, `EncoderWrites`, `DictMeans`, `PageTreeIsWalked`, `UriAt`,
`StaleMeans`, `FirstGateRefuses`, `DecisionsAreTheTable`, `RepairsMean`, `CreateMeans`
and `ClockMeasuresTime` spell constants, keys, positions and reasons out.

## Assumptions about the environment

- A provider `create` sends at most one request. It raises `DraftRunRefused`
  only when that request neither landed nor can land. Everything else may go
  wrong: the request may land late, be dropped, or land without a response.
- A provider read reports only objects written under the key, under their own
  id or a blank one. It may also report nothing although an object exists.
- Each `session.begin()` block is atomic: the job row lock and the unique keys
  of the schema serialise it. Clocks never run backwards in `LeaseNotTaken`; the
  write theorems do not use the clock, and allow job rows to be overwritten
  arbitrarily between any two steps.
- zlib is any pair with `inflate(deflate(x)) = x` and non-empty output
  (`Lossless`); CRC-32 is any function; `isoformat` and `fromisoformat` are an
  inverse pair.

## Where a plausible law is false of the code

Each has a lemma at an input and one that says exactly when it holds.

- *The latest attempt carries every recorded id.* False after a lease takeover:
  `OverlapHidesAnId` gives the run. `WhatHidesAnId` says exactly which step does
  it, `IdStaysInLog` what holds anyway, `IdCarriedForward` when it holds.
- *Every annotation whose URI is extracted was checked as an annotation.* False
  when `/Annots` is two references away, because the walk resolves one and the
  extractor up to eight: `WidgetIsExtracted` gives a whole document that passes
  and whose extracted annotation is a `/Widget`. `LinkIffNamed` is exact: the
  annotation is a checked `/Link` iff some `/Annots` key names it through arrays
  and single references. `NearAnnotationIsALink` is the case of a page's own key.
- *Once a request is out nobody may create again.* False of a request that never
  landed and was refused: `RefusedRequestReturnsTheRight`. A right comes back
  through a recorded definite absence and nothing else (`OnlyAbsenceReopens`,
  `RightReturnsByAbsence`); after a crash, a timeout or a lost response it never
  does (`NothingSentAfterUncertainty`, `LostForGood`).
- *Every action URI is checked by the walk or returned by the extractor.* False
  when a page's `/Annots` is a link annotation, or a stream, and not an array: the
  walk defers its URI and the extractor passes it over. `RefusedUriPassesOver`
  gives the document; `UrisAccountedFor` is exact, `ArraysAreSafe` the usual case.
- *The decoder reads whatever the encoder writes.* False for images of no width
  or no height: `EmptyImageIsRefused`; `EncodeDecode` is exact. The program never
  asks for such an image: `_encode_rgb` is called only from `_canonical_rgb`,
  after a decode that makes both sides at least 1 (`CanonicalIsStable`).
- *Joining wrapped lines gives the text back.* False for a leading space:
  `LeadingSpaceIsLost`. `WrapKeepsText` is exact, in terms of the line being
  filled, so it takes the wrap itself to evaluate. On the text alone:
  `SafeAtEveryWidth` (all widths) and `ShortTextSurvives` (text that fits a line).
- *decode(encode(v)) = v.* False for a plain dictionary that looks like a tag:
  `TaggedDictIsLost`; `RoundTrip` is exact.
- *A cull percentage gives a decision.* Above 100 the cutoff index can run out
  of range: `HundredAndTwentyFails` at five listings; `CullIds` returns `None`
  exactly where a pool exceeds its cohort, which up to 100 percent it never does
  (`PercentApplies`) and from 120 percent it always does (`LargePercentOverruns`).
- *Created ids stay duplicate-free.* False if the client publishes a page twice:
  `PublishedTwice`. `CreateKeepsStep` and `UncleanBreaksStep` are exact for a
  client that publishes at most the page it returns. The live client always
  checks first (`LiveClientIsClean`).

## Model

| member | source | states |
|---|---|---|
| `EffectTables.LatestIsLast` | src/money_machine/orchestration/idempotency.py:173-199 | on a log numbered 0..n-1 the attempt with the highest number is the last one and the next number is n |
| `EffectTables.LatestIsHighest` | src/money_machine/orchestration/idempotency.py:173-199 | no attempt has a higher number than the latest, however the log is numbered |
| `EffectTables.RecordKeepsNumbers` | src/money_machine/orchestration/idempotency.py:201-256 | a recorded attempt takes the next free number, so attempts stay numbered 0..n-1, and it becomes the latest |
| `EffectTables.BeginKeepsRows` | src/money_machine/application/real_draft_effects.py:123-167 | the opening block keeps the row constraints, only appends, grants the right to create exactly for a new key or a latest ABSENT, and then knows no id and leaves UNKNOWN as the latest state |
| `EffectTables.AcceptKeepsRows` | src/money_machine/application/real_draft_effects.py:195-223 | storing an accepted id keeps the row constraints, only appends, puts that id on the last attempt, and changes nothing once the key is completed |
| `EffectTables.FailKeepsRows` | src/money_machine/application/real_draft_effects.py:232-253 | the failure block keeps the row constraints, only appends attempts, and leaves receipts and reservation alone |
| `EffectTables.ConfirmKeepsRows` | src/money_machine/application/real_draft_effects.py:257-293 | whatever the closing block returns keeps the row constraints: the key completed with one receipt, or unchanged if it was completed already (when it returns: `ConfirmMeans`) |
| `EffectTables.BeginMeans` | src/money_machine/application/real_draft_effects.py:123-167 | the opening block succeeds iff the key has at most 200 characters and the reservation, if any, is this job's and operation's; then the right, the known id and every row of the result, spelled out |
| `EffectTables.AcceptMeans` | src/money_machine/application/real_draft_effects.py:195-223 | storing an accepted id succeeds iff the reservation is this job's and a completed key has this very receipt; on an open key it appends exactly one UNKNOWN attempt with the id |
| `EffectTables.FailMeans` | src/money_machine/application/real_draft_effects.py:238-253 | the failure block appends one ABSENT attempt without an id, or one UNKNOWN attempt with the known id, on an open key, and changes nothing otherwise |
| `EffectTables.ConfirmMeans` | src/money_machine/application/real_draft_effects.py:257-293 | the closing block succeeds iff there is a reservation; an open key gains one CONFIRMED attempt for the object, that one receipt and the completion mark, a completed key is left as it is |
| `EffectTables.ClaimMeans` | src/money_machine/cli/real_draft.py:399-430 | a job is claimed iff it is in scope and ready or running with no unexpired lease, and the lease then runs for two hours |
| `EffectTables.ExpireMeans` | src/money_machine/cli/real_draft.py:546-551 | the owner's running job expires now, every other job is left as it is |
| `EffectStore.Store.LatestAttempt` | src/money_machine/orchestration/idempotency.py:173-199 | the query returns an attempt of the key with no higher number in its log, and nothing iff the key has none |
| `EffectStore.Store.RecordAttempt` | src/money_machine/orchestration/idempotency.py:201-256 | appends one numbered attempt to its own key and touches no other key, receipt or job |
| `EffectStore.Store.BeginEffect` | src/money_machine/application/real_draft_effects.py:123-167 | equals the opening transaction under a valid lease and changes nothing otherwise |
| `EffectStore.Store.AssertLease` | src/money_machine/application/real_draft_effects.py:87-100 | allows the write exactly under the current lease with this job's reservation still open |
| `EffectStore.Store.AcceptEffect` | src/money_machine/application/real_draft_effects.py:195-223 | equals the accepted-id transaction, which asks for the scoped job but not for the lease |
| `EffectStore.Store.FailEffect` | src/money_machine/application/real_draft_effects.py:238-253 | equals the failure transaction under a valid lease and changes nothing otherwise |
| `EffectStore.Store.ConfirmEffect` | src/money_machine/application/real_draft_effects.py:257-293 | equals the closing transaction: attempt, receipt and completion mark together, or nothing |
| `EffectStore.Store.ClaimBuildJob` | src/money_machine/cli/real_draft.py:399-430 | hands the lease over exactly when the job is in scope and ready or running with no unexpired lease; the new owner then holds it |
| `EffectStore.Store.ExpireLease` | src/money_machine/cli/real_draft.py:546-551 | the owner's lease ends now and for every later time; a job of another owner is untouched |
| `EffectInvariant.ClaimInv` | src/money_machine/application/real_draft_effects.py:149-167 | the only step that hands out the right to create keeps the invariant: nobody held the right or had written before it |
| `EffectInvariant.RaiseInv` | src/money_machine/application/real_draft_effects.py:232-237 | an exception anywhere in the try block keeps the invariant: a refusal claims absence only of a write that never was |
| `EffectInvariant.FailedRowsInv` | src/money_machine/application/real_draft_effects.py:235-253 | ABSENT is recorded only where nobody holds the right, has a request out, or has written |
| `EffectInvariant.ConfirmedRowsInv` | src/money_machine/application/real_draft_effects.py:257-293 | what the closing block makes of a true id is a completed key whose one receipt is that id (that it always gets there: `ConfirmingIsDone`) |
| `EffectInvariant.StepInv` | src/money_machine/application/real_draft_effects.py:102-293 | every step of every executor, of the provider and of a crash keeps the protocol invariant, whatever the leases |
| `EffectRuns.AtMostOneWrite` | src/money_machine/application/real_draft_effects.py:102-293 | over every interleaving of executors, crashes, lost responses, late writes and lease takeovers, the provider accepts at most one write per key |
| `EffectRuns.OneRight` | src/money_machine/application/real_draft_effects.py:133-167 | in every reachable state at most one executor holds the right to create; while the latest attempt is ABSENT nobody does, nothing is in flight and nothing was written |
| `EffectRuns.NoSecondRight` | src/money_machine/application/real_draft_effects.py:149-167 | in every reachable state in which a request is out or an object exists, an executor that starts there may not create |
| `EffectSpent.SpentStep` | src/money_machine/application/real_draft_effects.py:102-293 | once the log allows no retry and no executor holds the right, every step keeps it so, sends nothing and gives nobody the right |
| `EffectSpent.UncertainIsSpent` | src/money_machine/application/real_draft_effects.py:183-189 | a crash or cancellation of whoever holds the right, or a timeout, a lost response or an answer once the mutation has started, ends in that state |
| `EffectSpent.SpentForEver` | src/money_machine/application/real_draft_effects.py:102-293 | over any run from there the right stays spent, no request is sent, and nobody new may create |
| `EffectSpent.NothingSentAfterUncertainty` | src/money_machine/application/real_draft_effects.py:232-237 | after any run, once a request's outcome is uncertain no request follows it for that key and no executor that starts later may create |
| `EffectSpent.OnlyAbsenceReopens` | src/money_machine/application/real_draft_effects.py:235-253 | a step lets a closed key be retried iff it records a definite absence, under the lease, on an open key |
| `EffectSpent.RightIsGranted` | src/money_machine/application/real_draft_effects.py:123-167 | a starting executor may create iff it holds the lease, its key is short enough and in scope, and the log is empty or ends in ABSENT |
| `EffectSpent.NoAbsenceNoRight` | src/money_machine/application/real_draft_effects.py:149-154 | over any run without a recorded absence a closed key stays closed and nobody gains the right |
| `EffectSpent.RightReturnsByAbsence` | src/money_machine/application/real_draft_effects.py:149-154 | a right held by an executor that started after the key was closed came through an absence recorded in between |
| `EffectSpent.LostForGood` | src/money_machine/application/real_draft_effects.py:173-175 | a key whose only request was lost never gets an object, an id, a receipt or a completion |
| `EffectSpent.LostRequestRun` | src/money_machine/application/real_draft_effects.py:183-189 | a run from a fresh start that ends in that state |
| `EffectSpent.RefusedRequestReturnsTheRight` | src/money_machine/application/real_draft_effects.py:235-253 | a run in which a request is dropped and refused, after which the key may be retried |
| `EffectRuns.CompletionAgrees` | src/money_machine/application/real_draft_effects.py:257-293 | completed iff one receipt iff latest attempt CONFIRMED, all naming the one provider object; every normal return reports it; attempts are numbered 0..n-1 |
| `EffectProgress.ConfirmingIsDone` | src/money_machine/application/real_draft_effects.py:257-293 | in every state that keeps the invariant, a lease holder with a confirmed id returns it and leaves the key completed with that one receipt |
| `EffectProgress.FoundIsConfirming` | src/money_machine/application/real_draft_effects.py:172-231 | an executor that reads, before or after its write, and is told the true id goes on to confirm that id |
| `EffectProgress.AnswerIsStored` | src/money_machine/application/real_draft_effects.py:184-223 | an answered write is stored as an attempt with its id, and the executor goes on to recheck |
| `EffectProgress.ReadbackIsDone` | src/money_machine/application/real_draft_effects.py:224-293 | from there a recheck, a read that finds the object and the closing block end in a completed key |
| `EffectProgress.RecoveryCompletes` | src/money_machine/application/real_draft_effects.py:102-293 | from any reachable state in which an object exists, a new executor with the lease that begins, finds the object and confirms it returns its id and completes the key: crashes and lost responses are recoverable |
| `EffectProgress.FirstWriteCompletes` | src/money_machine/application/real_draft_effects.py:102-293 | from any reachable state in which a lease holder's request is out on an open key, landing, answer, storage, recheck, read and confirmation all go through and complete the key with that object |
| `EffectProgress.OrdinaryRun` | src/money_machine/application/real_draft_effects.py:102-293 | a run from a fresh start, first read to return, that ends with the key completed |
| `EffectRuns.StepGrows` | src/money_machine/application/real_draft_effects.py:195-293 | one step never rewrites attempts, receipts or writes, and changes no row of a completed key |
| `EffectRuns.RunGrows` | src/money_machine/application/real_draft_effects.py:195-293 | from any reachable state on, the log only grows and completion freezes the rows for ever |
| `EffectRuns.IdStaysInLog` | src/money_machine/application/real_draft_effects.py:193-223 | a recorded id stays at its place in the log for ever and is the id of the provider's one object |
| `EffectRuns.WhatHidesAnId` | src/money_machine/application/real_draft_effects.py:238-253 | a step hides a recorded id from the latest attempt iff it is the failure block of a lease holder that never learnt the id, on an open key |
| `EffectRuns.NoAbsenceOnceNamed` | src/money_machine/application/real_draft_effects.py:232-253 | an executor in its handler never claims absence of an object whose id is on record |
| `EffectRuns.BegunCarries` | src/money_machine/application/real_draft_effects.py:147-154 | the opening block claims no retry where an id is on record, and starts from that id |
| `EffectRuns.IdCarriedForward` | src/money_machine/application/real_draft_effects.py:147-228 | in runs without overlapping executions the latest attempt carries the recorded id and every read an executor still makes asks for it |
| `EffectRuns.LeaseGuardsRows` | src/money_machine/application/real_draft_effects.py:76-85 | rows change only under the current lease, except to store an accepted id |
| `EffectRuns.LeaseNotTaken` | src/money_machine/cli/real_draft.py:418-425 | over any run, an unexpired lease that its owner has not given up is not taken over |
| `EffectOverlap.OverlapHidesAnId` | src/money_machine/application/real_draft_effects.py:238-253 | a reachable run, with a takeover while a request is in flight, after which the log holds an id and the latest attempt does not |
| `PngFilter.PaethAgrees` | src/money_machine/assets/video_paint.py:155-164 | the Paeth functions of the decoders and of the PDF reader agree on all inputs |
| `PngFilter.PaethIsNearest` | src/money_machine/assets/screenshots.py:584-593 | the predictor is the neighbour nearest to left + up - upper left, ties in that order (section 6.6 of RFC 2083) |
| `PngFilter.PredictObeys` | src/money_machine/assets/screenshots.py:559-593 | one byte of each kind obeys the standard's law in plain arithmetic: nothing, left, up, the floor of their mean, or the nearest of the three in order is added modulo 256 |
| `PngFilter.UnfilterObeys` | src/money_machine/assets/screenshots.py:559-593 | every byte of a reconstructed row obeys that law, the reconstructed byte to its left and zeros outside the row |
| `PngFilter.UnfilterInvertsFilter` | src/money_machine/assets/screenshots.py:559-593 | reconstruction undoes filtering, for every filter kind, row and pixel size (section 6 of RFC 2083) |
| `PngFilter.FilterInvertsUnfilter` | src/money_machine/assets/screenshots.py:559-593 | filtering undoes reconstruction, so distinct filtered rows give distinct rows |
| `PngFilter.AddLeft` | src/money_machine/assets/screenshots.py:559-562 | the in-place loop turns the row into the Sub reconstruction of what it held, byte by byte by the standard's law |
| `PngFilter.AddUp` | src/money_machine/assets/screenshots.py:565-567 | the in-place loop turns the row into the Up reconstruction of what it held, byte by byte by the standard's law |
| `PngFilter.AddAverage` | src/money_machine/assets/screenshots.py:570-573 | the in-place loop turns the row into the Average reconstruction of what it held, byte by byte by the standard's law |
| `PngFilter.AddPaeth` | src/money_machine/assets/screenshots.py:576-581 | the in-place loop turns the row into the Paeth reconstruction of what it held, byte by byte by the standard's law |
| `PngRows.DecodeInvertsEncode` | src/money_machine/assets/video_paint.py:103-127 | for all pixel rows and any choice of filter per row, decoding gives the original rows back |
| `PngRows.LenientAgrees` | src/money_machine/assets/pdf_reader.py:342-360 | the strict and the lenient row readings agree wherever the strict one accepts, which is iff every row kind is at most 4 |
| `PngRows.UndoFilter` | src/money_machine/assets/screenshots.py:514-529 | one row is reconstructed in place by the filter its kind byte names |
| `PngRows.UnfilterImage` | src/money_machine/assets/video_paint.py:103-127 | the row loop reconstructs the whole image, every row at its place in the stream by the standard's law from the row above, and refuses iff a kind is above 4 |
| `PngRows.RowsObey` | src/money_machine/assets/video_paint.py:103-127 | row y of any decoded stream is the row at y * (stride + 1), reconstructed by the standard's byte law from row y - 1, zeros above the first |
| `PngRows.ImageMeans` | src/money_machine/assets/screenshots.py:507-529 | a stream of whole rows gives exactly that many rows under the law, and is refused iff some kind byte is above 4 |
| `PdfPredictor.UnpredictRow` | src/money_machine/assets/pdf_reader.py:345-357 | the byte-by-byte inner loop is the one-byte-per-pixel reconstruction of the row, by the standard's byte law |
| `PdfPredictor.UnpredictRows` | src/money_machine/assets/pdf_reader.py:341-360 | the row loop reconstructs every whole row and drops a partial one |
| `PdfPredictor.Unpredict` | src/money_machine/assets/pdf_reader.py:332-360 | streams without a PNG predictor are returned as they are, the others are the reconstructed rows one after another, each by the standard's byte law |
| `PdfPredictor.UnpredictedObeys` | src/money_machine/assets/pdf_reader.py:332-366 | every whole row of a predicted stream stands at its place in the output and obeys the byte law |
| `PdfPredictor.UnpredictInvertsPredict` | src/money_machine/assets/pdf_reader.py:332-360 | predictors applied to any rows are undone byte for byte (section 7.4.4.4 of ISO 32000-1) |
| `PdfPredictor.UnpredictIsUnfilter` | src/money_machine/assets/pdf_reader.py:332-366 | the PDF predictor equals the PNG decoder at one byte per pixel wherever that decoder accepts |
| `PngCodec.BeRoundTrip` | src/money_machine/assets/screenshots.py:461-463 | a four-byte big-endian length reads back as the number written |
| `PngCodec.FromBeRoundTrip` | src/money_machine/assets/screenshots.py:481-483 | every four bytes are the encoding of the number they read as |
| `PngCodec.ReadChunks` | src/money_machine/assets/screenshots.py:475-502 | the cursor loop equals the recursive chunk walk, with its header checks, joined IDAT and early IEND |
| `PngCodec.StripAlpha` | src/money_machine/assets/screenshots.py:530-537 | byte k of pixel (x, y) of the result is byte 4x + k of row y, for k below 3, and there is nothing else |
| `PngCodec.StripLaw` | src/money_machine/assets/screenshots.py:530-537 | the same of the specification: three bytes of every four, by position |
| `PngCodec.PlainLaw` | src/money_machine/assets/screenshots.py:530-531 | three-channel rows are joined as they are, by position |
| `PngCodec.DecodeFile` | src/money_machine/assets/screenshots.py:472-537 | the decoder, with or without colour type 6, equals its specification on every byte string; what that specification computes is `DecodesExactly` |
| `PngPixels.WalkMiddle` | src/money_machine/assets/screenshots.py:480-502 | the chunk walk joins the IDAT data in file order, whatever other chunks stand between |
| `PngPixels.AnyFileDecodes` | src/money_machine/assets/screenshots.py:472-537 | a file of any RGB or RGBA rows, any filter per row, its stream split over any IDAT chunks, decodes to the red, green and blue of those rows |
| `PngExact.WalkIsLegal` | src/money_machine/assets/screenshots.py:480-502 | whatever the walk returns on reads as chunks, every header legal, up to an end chunk or fewer than eight bytes |
| `PngExact.DecodesExactly` | src/money_machine/assets/screenshots.py:472-537 | over all bytes: an image iff the file reads as legal chunks whose joined IDAT data inflates to full rows with known filters, and then the image of those rows under the last header; an exception iff that stream does not inflate; a refusal otherwise |
| `PngExact.EncodesExactly` | src/money_machine/assets/screenshots.py:540-556 | the encoder writes exactly the images that have all their pixels and whose sizes fit four bytes |
| `PngPixels.EncoderWrites` | src/money_machine/assets/screenshots.py:461-556 | the file it writes, byte by byte: signature, header, one IDAT with the deflated filter-0 rows, end, each with its checksum |
| `PngCodec.EncodeFile` | src/money_machine/assets/screenshots.py:540-556 | the canonical encoder equals its specification on every image |
| `PngCodec.EncodeDecode` | src/money_machine/assets/screenshots.py:540-556 | either decoder returns exactly the image the encoder wrote iff width and height are at least 1, and refuses otherwise |
| `PngCodec.EmptyImageIsRefused` | src/money_machine/assets/screenshots.py:496-497 | the image without pixels is encoded and then refused |
| `PngCodec.CanonicalIsStable` | src/money_machine/assets/screenshots.py:466-469 | the canonical form is a fixed point, and the walkthrough decoder reads it with the same pixels |
| `PngCodec.WalksAgree` | src/money_machine/assets/video_paint.py:24-50 | the walkthrough's chunk walk succeeds iff the screenshot's does and met no four-channel header, with the same result |
| `PngCodec.DecodersAgree` | src/money_machine/assets/video_paint.py:20-54 | what the walkthrough decoder accepts, the screenshot decoder accepts with the same image |
| `PngLineage.InsertBeforeEnd` | src/money_machine/assets/screenshots.py:440-458 | the copying loop equals one splice at the first IEND, or a refusal |
| `PngLineage.BindFile` | src/money_machine/assets/screenshots.py:431-458 | the whole function equals its specification, with the refusals for signature and text |
| `PngLineage.BindAccepts` | src/money_machine/assets/screenshots.py:431-458 | accepted iff the text is ASCII and the file is a signature, ordinary chunks and one IEND that ends the file (section 3.2 of RFC 2083) |
| `PngLineage.BindInserts` | src/money_machine/assets/screenshots.py:431-458 | the output is the same chunk list with one tEXt chunk just before IEND |
| `PngPixels.BinderWrites` | src/money_machine/assets/screenshots.py:431-463 | the inserted chunk, byte by byte: a tEXt with the keyword mm-lineage, a zero byte, the text and its checksum, just before the end |
| `PngLineage.UnbindInvertsBind` | src/money_machine/assets/screenshots.py:431-458 | cutting that chunk out restores the input byte for byte |
| `PngLineage.BindKeepsPixels` | src/money_machine/assets/screenshots.py:431-537 | both decoders give the same image or the same refusal before and after binding |
| `PdfGraph.GraphWalk.Scan` | src/money_machine/assets/pdf_objects.py:168-227 | a scan that returns leaves every dictionary of the value checked in its role and every reference in it followed, nests at most 64 levels deep, visits nothing in a role no key gives it, defers a URI only under a link of a tree page, and does not refuse what a walk without the seen set accepts |
| `PdfGraph.GraphWalk.ScanRef` | src/money_machine/assets/pdf_objects.py:181-186 | a reference is followed once per role, and its object is then good in that role |
| `PdfGraph.GraphWalk.ScanItems` | src/money_machine/assets/pdf_objects.py:208-218 | every element of an array is checked in the role of the array |
| `PdfGraph.GraphWalk.ScanFields` | src/money_machine/assets/pdf_objects.py:187-207 | a dictionary passes only if its own checks and those of all its values pass |
| `PdfGraph.GraphWalk.ScanAll` | src/money_machine/assets/pdf_objects.py:229-234 | trailer and every object of the table are covered, reachable or not |
| `PdfGraph.RefuseGraph` | src/money_machine/assets/pdf_objects.py:151-234 | if it returns, catalog and page tree are well formed and every dictionary anywhere has an allowed `/S` and page key set; it passes every document the walk without a seen set passes |
| `PdfGraph.EveryDictionaryChecked` | src/money_machine/assets/pdf_objects.py:301-323 | a covered document has, in every nested dictionary, `/S` equal to `URI` when a name and one of two key sets when a `/Page` |
| `PdfGraph.EveryRoleChecked` | src/money_machine/assets/pdf_objects.py:181-298 | every dictionary that a key names, itself or through arrays nested to any depth, each step inline or one reference away, was checked under that key however often it is shared; its URI too, unless the key is `A` and a link of a tree page names it |
| `PdfGraph.EveryUriChecked` | src/money_machine/assets/pdf_objects.py:326-349 | every action URI of a passing document was checked, except those a tree page's own link annotations name |
| `PdfGraph.EveryLevelChecked` | src/money_machine/assets/pdf_objects.py:177-207 | no part of a passing document is nested deeper than 64 levels, and a dictionary written as the value of an `A` key belongs to an annotation |
| `PdfRules.LookupReads` | src/money_machine/assets/pdf_objects.py:27-28 | a key reads its first entry and nothing else |
| `PdfRules.DerefMeans` | src/money_machine/assets/pdf_reader.py:496-503 | a value resolves to a target iff at most eight references of the table lead to it |
| `PdfRules.DictMeans` | src/money_machine/assets/pdf_objects.py:263-349 | exactly which dictionaries pass, key sets and names spelled out: the rule of the key that names it, the page and action rules, and its URI unless deferred |
| `PdfRules.FlagsMean` | src/money_machine/assets/pdf_objects.py:193-207 | what the walk remembers on the way to a child: an annotation's action, a deferred link action, a tree page's annotations |
| `PdfRules.DepthIsExact` | src/money_machine/assets/pdf_objects.py:177-218 | arrays and scalars are refused iff something stands deeper than 64 levels |
| `PdfRules.EveryDictionaryObeys` | src/money_machine/assets/pdf_objects.py:301-349 | every dictionary of a passing document obeys the spelled-out page and action rules, and its URI rule unless a tree page's link names it |
| `PdfRules.EveryRoleObeys` | src/money_machine/assets/pdf_objects.py:181-298 | every dictionary that a key names obeys the spelled-out rule of that key; none is named by `AA` |
| `PdfRules.CatalogMeans` | src/money_machine/assets/pdf_objects.py:237-244 | the catalog passes iff the trailer's `Root` resolves to a dictionary with exactly the keys `Pages` and `Type` |
| `PdfTree.PageTreeIsWalked` | src/money_machine/assets/pdf_objects.py:44-68 | the page-tree walk returns iff a finite tree of at most 65 levels hangs below the node: its path of references refuses cycles and nothing else |
| `PdfTree.DocumentHasPages` | src/money_machine/assets/pdf_objects.py:44-68 | a document with a good catalog has pages iff its `Pages` entry leads to such a tree |
| `PdfGraph.ExtractedPagesChecked` | src/money_machine/assets/pdf_objects.py:44-68 | every page that the page tree yields has exactly one of the two allowed key sets |
| `PdfGraph.DictVisited` | src/money_machine/assets/pdf_objects.py:168-234 | every dictionary of a passing document was checked in some role that the document itself gives it |
| `PdfLinks.ReadItems` | src/money_machine/assets/pdf_objects.py:146-147 | the inner loop returns the URI of every annotation item in order, and fails iff one of them does |
| `PdfLinks.ReadPages` | src/money_machine/assets/pdf_objects.py:141-148 | the outer loop equals its specification: every page's URIs in page order, or a refusal (positions: `UriAt`; refusals: `PagesRead`) |
| `PdfLinks.DeliveryLinkUris` | src/money_machine/assets/pdf_objects.py:128-148 | a result is the URIs of a passing document; each annotation it was read from is a `/Link` iff some `/Annots` key names it; every action URI passes the rules or is in the result iff this holds of the links outside an array; a document the walk without a seen set accepts is refused only by its annotations; the URIs are those of the leaves of the `/Kids` tree in depth-first order, item after item |
| `PdfLinks.PagesAreLeaves` | src/money_machine/assets/pdf_objects.py:44-68 | the pages are the leaves of the `/Kids` tree in depth-first order |
| `PdfLinks.UrisInOrder` | src/money_machine/assets/pdf_objects.py:141-148 | the result is one part per page in page order, each with one text per annotation item in array order |
| `PdfLinks.UriAt` | src/money_machine/assets/pdf_objects.py:141-148 | the URI at (items of the pages before p) + k is the text that the action of item k of page p resolves to |
| `PdfRules.ItemMeansLink` | src/money_machine/assets/pdf_objects.py:359-377 | an item is read as a text iff it resolves to an annotation with exactly the link keys whose action has one of two shapes and whose URI resolves once to that text |
| `PdfRules.PagesRead` | src/money_machine/assets/pdf_objects.py:141-148 | the pages are read iff every `/Annots` resolves and every element of it, if it is an array, is such a link |
| `PdfLinks.LinkIffNamed` | src/money_machine/assets/pdf_objects.py:258-298 | in a passing document a dictionary with the link keys is a `/Link` iff some `/Annots` key names it through arrays and single references |
| `PdfLinks.ExtractedMeans` | src/money_machine/assets/pdf_objects.py:128-148 | every annotation the extractor reads yields a URI and obeys that equivalence |
| `PdfLinks.NearAnnotationIsALink` | src/money_machine/assets/pdf_objects.py:293-298 | an extracted annotation was checked as one when `/Annots` and its items are each at most one reference away |
| `PdfLinks.UrisAccountedFor` | src/money_machine/assets/pdf_objects.py:326-349 | when the extractor returns, every action URI passes the rules or is returned iff this holds of the link annotations that are a tree page's `/Annots` itself or its stream |
| `PdfLinks.DeferredIsReturnedOrBare` | src/money_machine/assets/pdf_objects.py:198-206 | a deferred URI is returned, or its link stands outside an array |
| `PdfLinks.ArraysAreSafe` | src/money_machine/assets/pdf_objects.py:326-349 | every action URI passes the rules or is returned when no tree page's `/Annots` is a dictionary or a stream |
| `PdfFarAnnot.WidgetIsExtracted` | src/money_machine/assets/pdf_objects.py:359-377 | a whole document that passes the walk, and from which the extractor returns the URI of a `/Widget` |
| `PdfBareLink.RefusedUriPassesOver` | src/money_machine/assets/pdf_objects.py:143-145 | a whole document that passes the walk, whose refused link URI is neither checked nor returned |
| `AssetLineage.Resolve` | src/money_machine/assets/asset_lineage.py:195-206 | finds an owned asset with the identity iff there is one, and a screenshot iff any is one |
| `AssetLineage.ResolveSource` | src/money_machine/assets/asset_lineage.py:195-206 | the two-pass loop resolves as specified |
| `AssetLineage.CodeMeansTainted` | src/money_machine/assets/asset_lineage.py:159-220 | the nested checks hold iff wrong spec, failed QA, or a source that is unknown, not a screenshot, or stale |
| `AssetLineage.Sweep` | src/money_machine/assets/asset_lineage.py:133-147 | one pass marks only what every closed set must contain, and a pass without progress leaves nothing tainted |
| `AssetLineage.FindStale` | src/money_machine/assets/asset_lineage.py:128-147 | the loop ends with the least set closed under staleness |
| `AssetLineage.SplitCurrent` | src/money_machine/assets/asset_lineage.py:116-156 | the current half is the product's assets, by rising positions, from which no chain of sources leads to a bad asset; the stale half is all its others, by rising positions, with only the QA result replaced |
| `AssetLineage.LeastOf` | src/money_machine/assets/asset_lineage.py:116-156 | every asset list has a least stale set |
| `AssetLineage.StaleMeans` | src/money_machine/assets/asset_lineage.py:159-220 | an identity is stale iff a chain of assets, each a source of the one before it by spec and hash, leads from it to an asset of another spec, with failed QA, or with a source that is no screenshot |
| `AssetLineage.SplitInOrder` | src/money_machine/assets/asset_lineage.py:148-156 | both halves keep the input's order and together hold every asset of the product once |
| `AssetLineage.OrderDoesNotMatter` | src/money_machine/assets/asset_lineage.py:116-156 | order and repetition of the input do not change which identities are stale |
| `AssetLineage.FreshIs` | src/money_machine/assets/asset_lineage.py:148-156 | the two halves partition the assets by staleness |
| `AssetLineage.CleanMeansNoneStale` | src/money_machine/assets/asset_lineage.py:159-220 | nothing is stale iff every asset has the spec, passed QA and is drawn only from screenshots of that spec |
| `AssetLineage.CurrentHalfIsStable` | src/money_machine/assets/asset_lineage.py:116-156 | splitting the current half again keeps all of it and marks nothing |
| `AssetLineage.AssetGate` | src/money_machine/assets/etsy_draft.py:80-87 | the count comparison passes iff every asset is this product's and none is stale |
| `AssetLineage.DraftOnlyWhenCurrent` | src/money_machine/assets/etsy_draft.py:54-87 | the draft is prepared iff all evidence passed, the kinds and roles are complete and every asset is current |
| `AssetLineage.CountIsSize` | src/money_machine/assets/etsy_draft.py:63-66 | the filtered tuples have as many assets as there are positions of that kind |
| `AssetLineage.FirstGateRefuses` | src/money_machine/assets/etsy_draft.py:54-87 | the answer is the first of the eight gates, in order, whose own spelled-out test fails, and the client is called iff none does |
| `Portfolio.GroupByShop` | src/money_machine/assets/portfolio_eligibility.py:386-389 | the dictionary holds each shop's cohort in input order and no other shop |
| `Portfolio.CullIds` | src/money_machine/assets/portfolio_eligibility.py:383-402 | marks exactly the listings strictly below their cohort's cutoff; fails iff a pool is larger than its cohort |
| `Portfolio.MultiplyIds` | src/money_machine/assets/portfolio_eligibility.py:405-418 | chooses exactly the unculled unique winner of each cohort |
| `PortfolioTable.EvaluatePortfolio` | src/money_machine/assets/portfolio_eligibility.py:162-186 | returns iff every pool fits its cohort; the outcomes of the listings in input order: none without a reconciled snapshot or while an earlier HOLD or REPAIR holds, REPAIR for a defect or views without orders on a mature listing, CULL below the cutoff, MULTIPLY for the unique winner, HOLD in window with the next collection in seven days |
| `PortfolioTable.CullByRank` | src/money_machine/assets/portfolio_eligibility.py:390-401 | a listing is below the cutoff iff the cohort has at least five and fewer than floor(n * percent / 100) of its members, itself included, score no higher: no sorting is needed to say so |
| `PortfolioTable.TopsByCount` | src/money_machine/assets/portfolio_eligibility.py:421-431 | the winner is the listing with orders that nothing in its cohort but itself equals or exceeds |
| `PortfolioTable.DecisionsAreTheTable` | src/money_machine/assets/portfolio_eligibility.py:162-270 | the specification's outcomes are that decision table, each listing's at its place in input order |
| `Portfolio.PercentApplies` | src/money_machine/assets/portfolio_eligibility.py:392-398 | every percentage up to 100 applies to every portfolio |
| `Portfolio.LargePercentOverruns` | src/money_machine/assets/portfolio_eligibility.py:392-398 | from 120 percent every cohort of five or more asks for an index beyond its end |
| `Portfolio.HundredAndTwentyFails` | src/money_machine/assets/portfolio_eligibility.py:392-398 | five alike listings of one shop at 120 percent do not get a decision |
| `Portfolio.CullIsDownwardClosed` | src/money_machine/assets/portfolio_eligibility.py:394-401 | culling a listing culls every listing of the shop with no higher score, so ties are never split |
| `Portfolio.CullIsBounded` | src/money_machine/assets/portfolio_eligibility.py:392-401 | fewer than the pool are marked, and none in a cohort under five |
| `Portfolio.CullIgnoresOrder` | src/money_machine/assets/portfolio_eligibility.py:383-402 | permuting the input changes nobody's mark |
| `Portfolio.WinnerTops` | src/money_machine/assets/portfolio_eligibility.py:421-431 | the unique winner is exactly the listing with orders and a score above all others of the cohort |
| `Portfolio.WinnerIsNeverCulled` | src/money_machine/assets/portfolio_eligibility.py:405-431 | a cohort's winner is never culled, so the explicit guard never fires |
| `Portfolio.CohortSplits` | src/money_machine/assets/portfolio_eligibility.py:235-253 | absent suppression each cohort member is CULL iff below the cutoff, MULTIPLY iff the unique winner, HOLD otherwise |
| `Portfolio.DecidedOnce` | src/money_machine/assets/portfolio_eligibility.py:162-186 | with distinct ids no listing is decided twice and every outcome belongs to a listing |
| `Portfolio.OneWinnerPerShop` | src/money_machine/assets/portfolio_eligibility.py:421-431 | a cohort has at most one winner |
| `CaptionWrap.WrapCaption` | src/money_machine/assets/video_font.py:60-75 | the loop equals the greedy specification |
| `CaptionWrap.WrapKeepsText` | src/money_machine/assets/video_font.py:60-75 | joining the lines gives the text back iff no empty word meets an empty or full line; always without empty words |
| `CaptionWrap.LeadingSpaceIsLost` | src/money_machine/assets/video_font.py:60-75 | a single space wraps to nothing |
| `CaptionWrap.SafeAtEveryWidth` | src/money_machine/assets/video_font.py:60-75 | a text survives every width iff it is empty or has no leading, trailing or doubled space |
| `CaptionWrap.ShortTextSurvives` | src/money_machine/assets/video_font.py:60-75 | a text that fits on one line survives iff it is empty or does not start with a space |
| `CaptionWrap.LinesFit` | src/money_machine/assets/video_font.py:60-75 | every line fits unless it is one over-long word |
| `CaptionWrap.GreedyAhead` | src/money_machine/assets/video_font.py:60-75 | against any other breaking at spaces greedy uses at most as many lines, and on a tie its last line is at most as full |
| `CaptionWrap.WrapIsOptimal` | src/money_machine/assets/video_font.py:60-75 | when all words fit, no breaking at spaces uses fewer lines |
| `FramePaint.Paint` | src/money_machine/assets/video_paint.py:192-205 | exactly one pixel takes the colour, or none when it lies outside the frame |
| `FramePaint.Blit` | src/money_machine/assets/video_font.py:78-110 | exactly the set dots of the text take the colour, clipped to the frame; every other byte is unchanged |
| `FramePaint.CaptionIsNotClipped` | src/money_machine/assets/video.py:192-205 | if the width and row checks pass, every set dot of the caption is on the frame and above the injected line |
| `FramePaint.LinesDoNotOverlap` | src/money_machine/assets/video_paint.py:181-183 | two lines of a caption never share a pixel |
| `FramePaint.ShotBlock` | src/money_machine/assets/video_paint.py:88-90 | each of m screenshots fills one contiguous block of floor(n/m) or ceil(n/m) of a scene's n frames |
| `FramePaint.ComposeFrames` | src/money_machine/assets/video_paint.py:68-100 | every frame of every scene stands at its place: its scene and hub marker in the first two pixels and, under them, what is painted for the screenshot of that frame's share of the scene; fails iff a scene with frames has no screenshot or a marker exceeds a byte |
| `FramePaint.RefuseSceneMarkers` | src/money_machine/assets/video.py:243-259 | refuses iff the length is wrong or some frame lacks its marker |
| `FramePaint.ComposeThenCheck` | src/money_machine/assets/video.py:308-320 | what is composed for the pinned scenes is never refused; its 300 frames of 160 by 90 pixels are those scenes' in order |
| `FixtureCodec.RoundTrip` | src/money_machine/application/fixture_provider.py:24-57 | decode(encode(v)) is v iff no plain dictionary inside v has a tag's key set |
| `FixtureCodec.RecordRoundTrip` | src/money_machine/application/fixture_provider.py:24-57 | a record survives iff its field values do, even when its own field names collide with a tag |
| `FixtureCodec.EncodeIsInjective` | src/money_machine/application/fixture_provider.py:24-41 | no two distinct untagged values are stored as the same JSON |
| `FixtureCodec.EncodeStores` | src/money_machine/application/fixture_provider.py:24-41 | the stored form by positions: the tags datetime, tuple, and type with fields; elements and members in order |
| `FixtureCodec.TaggedDictIsLost` | src/money_machine/application/fixture_provider.py:44-57 | a dictionary whose only key is `datetime` does not survive |
| `LiveClock.ClipAll` | src/money_machine/assets/maturity_clock.py:102-120 | refuses iff some interval is invalid or unknown, else returns the clipped ACTIVE ranges |
| `LiveClock.SumApart` | src/money_machine/assets/maturity_clock.py:122-130 | the accumulating loop sums whole seconds, and stops iff a sorted range starts before the one before it ends |
| `LiveClock.AccumulatedLivePeriods` | src/money_machine/assets/maturity_clock.py:102-130 | returns whole days of live seconds, and refuses for overlap iff two clipped ranges share positive time |
| `LiveClock.ApartMeansDisjoint` | src/money_machine/assets/maturity_clock.py:121-126 | on sorted ranges checking neighbours is the same as checking all pairs |
| `LiveClock.ClockIgnoresOrder` | src/money_machine/assets/maturity_clock.py:102-130 | the result does not depend on the order of the intervals |
| `LiveClock.SecondsAreTight` | src/money_machine/assets/maturity_clock.py:127-130 | the total never exceeds the true time, falls short by less than a second per range, and is exact on whole seconds |
| `LiveClock.PeriodsBounded` | src/money_machine/assets/maturity_clock.py:102-130 | periods never exceed the days since publication |
| `LiveMeasure.LengthsAreLiveTime` | src/money_machine/assets/maturity_clock.py:111-127 | without overlap the clipped lengths add up to the number of moments after publication and before evaluation at which the listing was ACTIVE |
| `LiveMeasure.TwiceMeans` | src/money_machine/assets/maturity_clock.py:121-126 | overlap is refused iff at some moment two intervals are ACTIVE |
| `LiveMeasure.ClockMeasuresTime` | src/money_machine/assets/maturity_clock.py:102-130 | refused iff an interval is bad, or some moment is ACTIVE twice; otherwise the days of 86400 seconds of ACTIVE time, short by less than a day and a second per interval, exact on whole seconds |
| `LinkMatch.MatchShorter` | src/money_machine/assets/link_validation.py:183-193 | pairs exactly the longest prefix of the URIs that is a subsequence of the accepted list, each with the first equal link after the one before it; `missing` is the complement |
| `LinkMatch.EarliestIsLeast` | src/money_machine/assets/link_validation.py:183-193 | no other placement of those URIs puts any of them at an earlier accepted link |
| `LinkMatch.Match` | src/money_machine/assets/link_validation.py:174-198 | pairs only equal links; exactly the equal positions when the PDF has enough links, the longest alignment when it has fewer |
| `LinkMatch.CheckLinks` | src/money_machine/assets/link_validation.py:146-161 | one record per link, against the variant of its pair, else of its position, else none; one repair per failing link by rising position, its reason the link rules' if they refuse, else the missing pair, else what the checker saw; the checker is asked only about a paired link the link rules accept |
| `LinkMatch.RepairsMean` | src/money_machine/assets/link_validation.py:146-161 | the same of the specification: which links get a repair, in which order, with which reason |
| `LinkMatch.NoRepairsMeans` | src/money_machine/assets/link_validation.py:146-161 | no repair iff every link is paired and passes both rules |
| `LinkMatch.NameMissing` | src/money_machine/assets/link_validation.py:162-165 | one mismatch per missing accepted link, in order |
| `LinkMatch.ValidateLinks` | src/money_machine/assets/link_validation.py:139-171 | a report, with a record per link, iff the URI sequence is the accepted sequence, is not empty and each link passes its rules; otherwise the repairs are the failing links with reason and position in order, then the missing accepted links |
| `LinkMatch.MissingSomething` | src/money_machine/assets/link_validation.py:183-193 | a shorter PDF always leaves an accepted link unused |
| `SandboxLedger.Kept` | src/money_machine/cli/notion_sandbox_pipeline.py:203-216 | the prefix that survives trimming ends with the returned page or is what was there before, and nothing of that page lies beyond it |
| `SandboxLedger.TrimKeeps` | src/money_machine/cli/notion_sandbox_pipeline.py:142-216 | on lists in step the trimming loop cuts ids and rows to that one prefix and never fails to shrink |
| `SandboxLedger.CreateBalanced` | src/money_machine/cli/notion_sandbox_pipeline.py:268-288 | one create keeps requests = counted creates + possible orphans, the orphans being exactly the unanswered requests |
| `SandboxTree.RequestsAccountedFor` | src/money_machine/cli/notion_sandbox_pipeline.py:268-319 | over any sequence of creates and any client, requests handed over equal counted creates plus possible orphans |
| `SandboxLedger.CreateKeepsStep` | src/money_machine/cli/notion_sandbox_pipeline.py:142-319 | a create keeps `created_ids` duplicate-free and in step with `created`, whatever its outcome, if the client publishes only new ids |
| `SandboxLedger.UncleanBreaksStep` | src/money_machine/cli/notion_sandbox_pipeline.py:200-297 | a client that publishes its returned page a second time, or a blank one, always breaks the step |
| `SandboxLedger.PublishedTwice` | src/money_machine/cli/notion_sandbox_pipeline.py:200-297 | one ledger and one call after which a page is listed twice |
| `SandboxLedger.LiveClientIsClean` | src/money_machine/cli/notion_sandbox_live.py:168-182 | what the live client publishes always meets that condition |
| `SandboxTree.RunStaysInStep` | src/money_machine/cli/notion_sandbox_pipeline.py:142-319 | over any sequence of creates the ids are distinct, equal the rows' ids, and never blank or the sandbox page |
| `SandboxCalls.CreatedAppends` | src/money_machine/cli/notion_sandbox_pipeline.py:268-319 | a successful call appends one row: a new page under the page asked for, which was allowed, fresh and not archived |
| `SandboxCalls.EarlierRowsKept` | src/money_machine/cli/notion_sandbox_pipeline.py:217-226 | earlier rows survive a call iff the client did not return one of their pages with a foreign space |
| `SandboxCalls.UnfreshIsNotOurs` | src/money_machine/cli/notion_sandbox_pipeline.py:175-241 | a stale or other-user page is listed as rejected and not as created |
| `SandboxMeaning.ChainMeans` | src/money_machine/cli/notion_sandbox_pipeline.py:243-265 | the walk up ends well iff the sandbox page is at most three pages up, each page read as the parent of the one before, unarchived, in the sandbox space and met once; the flags for a wrong page and for a page outside are exact |
| `SandboxMeaning.CreateMeans` | src/money_machine/cli/notion_sandbox_pipeline.py:229-319 | one create in full, constants spelled out: it succeeds iff the parent is the sandbox page or a created one, the bot is in the sandbox space, the returned page is new, there, and made by the bot within two minutes of the run's minute and moment, is read back so, and its chain reaches the sandbox page; which page is marked with which reason; which is rejected |
| `SandboxMeaning.ListsMean` | src/money_machine/cli/notion_sandbox_pipeline.py:200-319 | both lists after one create: unchanged, one row struck, or one row added, and which row |
| `SandboxTree.SuccessfulRunIsATree` | src/money_machine/cli/notion_sandbox_pipeline.py:268-319 | while all calls succeed there is one row per call, under the page it asked for, and every parent is the sandbox page or an earlier row |
| `SandboxTree.CreatedIsShallow` | src/money_machine/cli/notion_sandbox_pipeline.py:243-265 | with reads that agree with the rows, a call succeeds only under a page at most two levels below the sandbox page |
| `SandboxTree.SuccessfulRunIsShallow` | src/money_machine/cli/notion_sandbox_pipeline.py:243-319 | such a run's pages hang at most three levels below the sandbox page |
| `SandboxTree.HonestCreateSucceeds` | src/money_machine/cli/notion_sandbox_pipeline.py:243-319 | for a client that returns a new page of this run and reads it and its ancestors back as they are, a create succeeds iff its parent is at most two levels below the sandbox page |
| `SandboxTree.SomeRunSucceeds` | src/money_machine/cli/notion_sandbox_pipeline.py:268-319 | every bot in the sandbox space has a run whose calls all succeed, so the run theorems are not vacuous |
| `SandboxRun.Run.TrimPublished` | src/money_machine/cli/notion_sandbox_pipeline.py:203-216 | the bounded loop with its shrink check equals the trimming function |
| `SandboxRun.Run.AlignPage` | src/money_machine/cli/notion_sandbox_pipeline.py:200-226 | the whole new ledger after alignment, and whether it was refused |
| `SandboxRun.Run.ChainReachesSandbox` | src/money_machine/cli/notion_sandbox_pipeline.py:243-265 | the walk up in at most four turns, with exactly the flag it leaves |
| `SandboxRun.Run.CreateUnder` | src/money_machine/cli/notion_sandbox_pipeline.py:268-319 | the whole new ledger and outcome of one call, for every client answer; for a client that publishes at most its page, answer, marks, rejections and rows by the spelled-out rules |
| `SandboxRun.Run.CreateAll` | src/money_machine/cli/notion_sandbox_pipeline.py:268-319 | a sequence of calls on one run object ends in the ledger of the run theorems, balanced, and in step while the client publishes cleanly |

## Left out

- The `job reconcile` command and `orchestration/reconciliation.py`, which also
  append attempts: the protocol theorems are about `execute` alone.
- SQLAlchemy sessions, the authority checks before the first transaction, and
  the columns of attempts and receipts that no decision reads.
- The adapters' own reads between `assert_lease` and the write: `create` is one
  abstract request. `assert_lease` itself is modelled and may refuse.
- Notion and Etsy adapters, browser painting, ffmpeg, fonts, SHA-256, UUID
  derivation, zlib and CRC internals, regular expressions.
- The PDF tokenizer: the model starts from parsed objects. A dictionary is a
  sequence of entries in iteration order; where it matters that no key occurs
  twice, `DistinctKeys` says so.
- FramePaint.ComposeFrames: does not model the bytes under the markers; the
  background, pasted screenshot, captions and bar are any painter. Frames narrower
  than two pixels or without a row, where the source clips a marker, are left out.
- FramePaint.Blit: takes the glyph table as a parameter, because the table is data.
- LinkMatch.ValidateLinks: takes the per-link rules and the observation rules as
  parameters; opening the PDF, its `/Info` scan, and what a record keeps of an
  observation, of times and of hashes are not modelled.
- PortfolioTable.EvaluatePortfolio: the percentage is an integer and the decision time
  is aware; parsing the one and refusing a naive other are not modelled, nor are
  the record fields that `_build` derives.
- SandboxLedger.CreateBalanced: a marker is the parent and title themselves, not
  their SHA-256, so two requests have equal markers only if they ask for the same.
- FixtureCodec.RoundTrip: records list all their fields; dataclass defaults
  for missing fields are not modelled.
- `evaluate_maturity`, `_repair`, `_build` and `schedule_new_front` are not modelled.
- `mutation_receipt.py`, the publishing ramp, support intake, preflight, the
  registries and the web console are not modelled.
