# PDF splitting by size — a Dafny model

The repository splits a PDF into parts whose size stays under a maximum given in
megabytes. It does this in two independent places:

- `split_pdf` (pdf_logic.py), used by the web service, appends pages to a pending
  run. It serialises the whole run only when the run length is a multiple of 5 or
  the last page is reached. A run over 95 % of the maximum is shortened from the
  tail, one page and one re-serialisation at a time, until a prefix fits. The
  pages taken off are processed again as the start of the next part. A page that is
  probed on its own and is already too large becomes a part by itself
  (pdf_logic.py:78-83). When shortening leaves a single page that is still too
  large, the code does not split it off; see "## Findings". Parts are named
  `parte_NNN.pdf`.
- `perform_split` (app.py), in the desktop application, measures every page once
  on its own. It sums these sizes and saves the pending part as soon as the next
  page would take the sum over 90 % of the maximum. Parts are saved as
  `<base>_parte_NNN.pdf`. It logs a progress percentage per page and the 1-based
  page range of every part. `start_split` rejects a maximum that is not positive.

The model has six modules:

- `Outcomes`: `Option` and `Result`.
- `Pages`: page ranges, and the tiling invariant both partitioners promise. A
  tiling has consecutive, non-empty runs that cover pages `0..n-1` once each, in
  order.
- `Naming`: `{n:03d}` zero-padding, the part file names, and the decoding of a
  name back to its part number.
- `PdfLogic`: `split_pdf`, written as methods with loop invariants.
- `PdfLogicAsWritten`: `split_pdf` as the code is actually written, including the
  state it leaves behind after a failed backtrack.
- `SimpleSplitter`: the loop of `perform_split` as pure functions, with its size
  validation, progress value and logged page range.

Serialisation with pypdf is replaced by an oracle:

- For `split_pdf` it is `measure(first, last)`, the byte length of pages
  `first..last` written as one document. Pages may share resources, so it is not
  additive.
- For `perform_split` it is the sequence of standalone page sizes.

Thresholds are exact reals: `max_size_mb * 1048576 * 0.95` and `* 0.9`.

Each partitioner is compared with an independent reference definition that builds
the partition part by part.

- For `split_pdf`: `GrowEnd`, `RunEnd` and `ReferencePlan`. When the measure is
  monotone, the emitted ranges equal the reference plan. Whatever the probe
  interval, the batching changes only how many serialisations happen, never where
  the parts end.
- For `perform_split`: `GreedyEnd` and `GreedyPlan`. A budget-respecting and
  maximal tiling exists (`GreedyPlanIsGreedy`), and it is unique
  (`GreedyTilingIsPlan`).

Facts about the code that the model keeps:

- The probe interval is the constant 5 (pdf_logic.py:34).
- `split_pdf` does not itself reject a non-positive maximum. Only the desktop
  application does (app.py:268-270, modelled by `PartBudget`).
- The code's parts carry no over-budget flag. The model's `Part.overBudget` is
  derived from the part's measured size.

## Model

| member | source | states |
|---|---|---|
| Naming.Pad3Decodes | app.py:376 | `{n:03d}` is a string of decimal digits that denotes `n`. It is exactly 3 characters for part numbers below 1000; larger numbers keep all their digits. |
| Naming.PartNameRoundTrip | pdf_logic.py:65 | Decoding `parte_NNN.pdf` gives back the part number it was made from. |
| Naming.PartNameInjective | pdf_logic.py:80 | Distinct part numbers never produce the same `parte_NNN.pdf` name. |
| Naming.SavedFileNameShape | app.py:376 | The desktop name is the base name, `_` and the `parte_NNN.pdf` name. It is at least 14 characters longer than the base name. |
| Naming.SavedFileNameInjective | app.py:376 | For one base name, distinct part numbers are saved under distinct file names. |
| PdfLogic.GrowEnd | pdf_logic.py:48-71 | The reference run end from `first`: every longer run it passes fits the threshold, and unless it stops at the last page, one more page would not fit. |
| PdfLogic.ShortenFromTail | pdf_logic.py:45-77 | Shortening an over-threshold run of two or more pages commits a prefix that starts at the run's first page and is shorter than the run. That prefix either fits while one more page does not, or is the first page alone, flagged over budget. No longer prefix up to the run's end fits, so the committed prefix is the first fitting one scanning from the tail, for any measure. The serialisations are backtracks of the prefixes ending at `top-1`, `top-2`, … down to the committed end, one per popped page. |
| PdfLogic.AfterProbe | pdf_logic.py:40-87 | After a probe, a part is committed exactly when the run is over the threshold or the probe is at the last page. A fitting run at the last page is committed whole. The committed part starts at the run's start and is settled. |
| PdfLogic.SplitPdfEvery | pdf_logic.py:25-91 | For any probe interval ≥ 1: parts tile pages `0..n-1` in order and are numbered 1, 2, 3, … Each records its measured size. Each fits with its successor page not fitting, or is a single over-budget page. Forward probes happen only at multiples of the interval or at the last page. No probe happens for an empty document. Under a monotone measure the parts are the reference plan. |
| PdfLogic.SplitPdf | pdf_logic.py:5-91 | `split_pdf` with interval 5 and threshold `max_size_mb·1048576·0.95`. It has the same guarantees, and an empty document gives no parts and no serialisation. |
| PdfLogic.ReferencePlanSettled | pdf_logic.py:26-89 | The reference partition tiles the pages, and each of its runs is settled: fitting and maximal, or one over-budget page. |
| PdfLogic.SettledTilingIsReference | pdf_logic.py:48-71 | Under a monotone measure, any tiling made of settled runs is the reference partition. The settled condition fixes every boundary. |
| PdfLogic.EmittedIsReference | pdf_logic.py:26-91 | Under a monotone measure, the parts emitted over the whole document are the reference partition. |
| PdfLogic.SettledIsLongestFit | pdf_logic.py:48-71 | Under a monotone measure, no run from a committed part's first page that is longer than the part fits. Each part is the longest fitting prefix. |
| PdfLogic.TiledPartsOrdered | pdf_logic.py:26-89 | Parts whose ranges tile the document, as `SplitPdfEvery` emits them, are strictly increasing and pairwise disjoint. |
| PdfLogic.TiledPartsCover | pdf_logic.py:26-89 | Every page of the document lies in one of those parts. |
| PdfLogic.NumberedPartNames | pdf_logic.py:65-70 | For any two positions of parts numbered 1, 2, 3, …: the name of part `i` reads back as `i+1`, and parts at different positions carry different names. This covers the last part and a single part. |
| PdfLogicAsWritten.StuckStep | pdf_logic.py:48-77 | On the two-page counterexample, take the state where the loop sits at page 1 with page 0 pending and nothing emitted. One pass of the loop body, as written, returns to that same situation. |
| PdfLogicAsWritten.AsWrittenNeverFinishes | pdf_logic.py:72-77 | A 2-page document whose first page alone is over the threshold: after any number of passes the loop, as written, is still running (`i < 2`) and has emitted no part. |
| SimpleSplitter.PartBudget | app.py:266-270 | A maximum size is rejected exactly when it is not positive. Otherwise the budget is positive and below the maximum in bytes. |
| SimpleSplitter.SplitDocument | app.py:268-277 | Splitting fails exactly for a non-positive maximum. Otherwise it is the greedy loop run against `max_size_mb·1048576·0.9`. |
| SimpleSplitter.GreedyEnd | app.py:329-345 | The reference part end from `first` stays within the document. If it grew the part, the grown part sums to at most the budget. Unless it stops at the last page, adding the next page would take the sum over the budget. |
| SimpleSplitter.GreedyPlanIsGreedy | app.py:319-345 | The reference partition is a greedy tiling. Its parts are consecutive and non-empty. Parts of two or more pages keep to the budget, and each part is closed only when the next page would exceed it. |
| SimpleSplitter.GreedyTilingIsPlan | app.py:319-354 | Any greedy tiling of the whole document is the reference partition, so the greedy partition is unique. |
| SimpleSplitter.StepKeepsInvariant | app.py:320-348 | One pass of the loop body keeps the loop invariant. The invariant covers several facts: the pending pages are `first..page_idx-1` and `current_size` is their sum. Earlier parts form a greedy tiling, numbered from 1 with recorded sums, and `part_num` is one more than their count. Progress has been logged for every page so far. |
| SimpleSplitter.Run | app.py:319-348 | Running the loop to the last page ends in a state that satisfies the loop invariant at `total_pages`. |
| SimpleSplitter.PerformSplit | app.py:310-354 | The saved parts, including the trailing one, form the greedy tiling and equal the reference partition. They are numbered 1, 2, 3, … and record their summed sizes. The reported `part_num` is the number of saved parts, except for an empty document, where it is 1. One progress value is logged per page. |
| SimpleSplitter.PerformSplitCovers | app.py:319-354 | The saved parts written in order list every page exactly once and in order. Every part is non-empty. There are parts exactly when there are pages, and the trailing part, ending at the last page, is saved. |
| SimpleSplitter.GreedyTilingBudget | app.py:329-345 | In a greedy tiling, a part of two or more pages sums to at most the budget. Every part but the last would exceed the budget with the page after it. |
| SimpleSplitter.PerformSplitBudget | app.py:329-345 | Budget and maximality of the saved parts: a multi-page part's recorded size is within the budget. A non-last part's size plus the next page's size is over it. |
| SimpleSplitter.PerformSplitOrdered | app.py:319-354 | The saved parts are strictly increasing and pairwise disjoint. |
| SimpleSplitter.PerformSplitCoversPage | app.py:319-354 | Every page of the document lies in some saved part. |
| SimpleSplitter.PerformSplitNames | app.py:376 | For any two positions of the saved parts: the part at position `i` is number `i+1`, and parts at different positions get different file names. This covers the last part and a single part. |
| SimpleSplitter.ProgressRises | app.py:348 | The logged progress strictly increases from page to page. |
| SimpleSplitter.ProgressRange | app.py:348 | Progress lies in (0, 100] and equals 100 exactly at the last page. |
| SimpleSplitter.PerformSplitProgress | app.py:346-349 | The progress values perform_split logs, one per page, rise strictly, stay within (0, 100] and end at 100 at the last page. |
| SimpleSplitter.LoggedPagesReadBack | app.py:383 | The logged page range splits at its dash into two decimal numbers: the part's first and last page, 1-based. |
| SimpleSplitter.EmptyDocumentReportsOnePart | app.py:352-365 | For a document without pages, `part_num` is reported as 1 while no part is saved. |
| SimpleSplitter.PartsSavedCounts | app.py:357-365 | The corrected total, the number of saved parts, agrees with `part_num` for every non-empty document and is 0 exactly for an empty one. |

Definitions without a contract of their own, which the members above state
properties of:

- `Naming.Pad3` is `{n:03d}` (app.py:376, pdf_logic.py:65).
- `Naming.PartName` is `parte_NNN.pdf` (pdf_logic.py:65, 80 and 87).
- `Naming.SavedFileName` is `<base>_parte_NNN.pdf` (app.py:376).
- `PdfLogic.Threshold` is `max_size_mb * 1024 * 1024 * 0.95` (pdf_logic.py:13-14).
- `SimpleSplitter.Step` is one pass of the loop body (app.py:320-348).
- `SimpleSplitter.Progress` is `(page_idx + 1) / total_pages * 100` (app.py:348).
- `SimpleSplitter.LoggedPages` is the `{first+1}-{last+1}` page range that
  `save_part` logs (app.py:383).

`PdfLogicAsWritten.ShortenAsWritten`, `StepAsWritten` and `RunAsWritten` transcribe
pdf_logic.py:26-89 line by line. This includes the writer's page list, which keeps
stale pages after a failed backtrack. They are definitions only; the lemmas above
state what they do on the counterexample.

## Left out

- The tkinter GUI, dialogs, log widget and colour labels of app.py: user interface.
- Folder creation and removal, file writing, opening the output folder, and
  installing dependencies: I/O and process control.
- server.py (Flask routes, upload handling, ZIP packaging) and static/js/main.js:
  HTTP and browser glue around `split_pdf`.
- pypdf's `PdfReader`/`PdfWriter`: replaced by the `measure` oracle and the page-size
  sequence.
- Serialisation and file errors: the oracle always answers, so no error path is
  modelled. In `split_pdf`, a pypdf exception propagates to the caller, and
  server.py:47-48 turns it into an HTTP 500 response with the message. In
  `perform_split`, `except Exception` (app.py:369-372) logs the error and re-enables
  the buttons. No total is reported, and the parts already written stay on disk.
- The timestamp in the output folder name: it comes from the clock.
- SimpleSplitter.PartBudget: non-finite maxima are not modelled, because the model
  starts from a real number. `float()` (app.py:266, and server.py:25 before it calls
  `split_pdf`) also accepts `"nan"` and `"inf"`. `nan <= 0` is false, so app.py:268
  lets NaN through. Then `current_size + page_size > nan` is never true
  (app.py:329), and the whole document is saved as one part. `split_pdf` does the
  same: its line 40 never fires, and line 87 emits everything as one part.
  Infinity behaves the same way in both places.
- IEEE-754 rounding of `max_size_mb * 1024 * 1024 * factor` and of the progress
  value: the model uses exact reals.
- The `:.1f` / `:.2f` formatting of the progress and the part size in MB: only
  the value is modelled.
- A maximum size that does not parse as a number (the `ValueError` branch of
  `start_split`): text parsing is not modelled. The model starts from the parsed
  value when it is a finite real number.
- The size `save_part` logs, read back from the written file: the model records
  the summed standalone size `current_size`, which is what the loop compares
  against the budget.
- The list `parts` in `perform_split`: it is never read back. The model's
  `saved` list records every `save_part` call instead, including the trailing one.

## Findings

| source | as written | input that shows it | evidently intended | confidence | as-written member | corrected member |
|---|---|---|---|---|---|---|
| pdf_logic.py:72-77 | When backtracking shrinks an over-threshold run to one page that still does not fit, the `while … else: pass` emits nothing, keeps the stale writer and leaves `i` on that page. The same run is rebuilt and probed again. | 2 pages; page 0 alone measures 10 bytes; threshold 4 bytes. The loop cycles forever, emitting nothing. | The page is split off as a part of its own, as the comment there says. | high for the given input; not executed | PdfLogicAsWritten.AsWrittenNeverFinishes | PdfLogic.ShortenFromTail |
| app.py:352-365 | For a document with zero pages, no part is saved, but `part_num` (still 1) is reported as the number of parts. | `total_pages == 0` | Report the number of parts saved (0). | low, as such a document is unusual; not executed | SimpleSplitter.EmptyDocumentReportsOnePart | SimpleSplitter.PartsSavedCounts |
