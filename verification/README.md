# Image converter popup — a Dafny model

The popup of this browser extension lets a user pick images, optionally
compress them, convert each to a chosen format and download the results one by
one or, when there are several, as one archive. Almost all of it is glue
around a compression library, a canvas, an SVG tracer and an archive library.
This project models the deterministic part of `popup.js`, and proves its
properties:

- `FileNames`: `getFileNameWithoutExtension` (strip the last extension, keeping
  names with no dot or with a single leading dot whole) and the
  `<base>.<format>` download name.
- `Progress`: the compressor's progress callback, which writes
  `Math.min(percentage, 100)` to the bar.
- `Conversion`: `compressImage` and `convertImage` as a shell around
  host oracles. These are the compression library, the file reader and
  decoder, the SVG tracer, `canvas.toBlob`, and the host's error for a
  missing blob. The shell covers optional compression, the
  "Compression failed: " prefix, the clamped compressor reports, the bar set
  to 100 when a file finishes, the fixed "image/svg+xml" type of SVG output,
  and the "image/<format>" type the raster encoder is asked for. The type of
  the raster blob is the host's choice.
- `Batch`: the convert button's click handler as a pure function `Click` over an
  immutable UI record. The record holds the bar value and visibility, the
  "download all" button's visibility and archive contents, the download list,
  and the alerts. `Process` is the left fold over the selection that stops at
  the first failure. `ConvertAll` is the same loop written the way the source
  writes it, proved equal to the fold.

The conversion of one file is a parameter (`Converter`), so the batch
properties hold for every host behaviour. Two details of `popup.js` are
worth noting:
- The bar shows each compressor report in turn, as `Math.min(report, 100)`
  (line 17). It does not keep the furthest value reported, and it is not
  clamped from below.
- A successful batch with one output hides the "download all" button but
  keeps the click handler it had before (lines 131-133). So `Ui.archive` is
  left unchanged in that case.

## Model

| member | source | states |
|---|---|---|
| FileNames.LastIndexOf | popup.js:69 | The result is -1 exactly when there is no dot. Otherwise it indexes a dot with no dot after it. |
| FileNames.BaseNameSpec | popup.js:68-76 | The result of `BaseName` is a prefix of the name. It equals the name iff the name has no dot or its only dot is at index 0. Otherwise it is non-empty, the character after it is the last dot, and name == result + "." + an extension without dots. |
| FileNames.BaseNameOfJoin | popup.js:68-76 | Inverse direction: for a non-empty base and a dot-free extension, stripping base + "." + ext gives base. |
| FileNames.OutputNameRoundTrip | popup.js:96-99 | Stripping the extension from a download name `<base>.<format>` gives back the base, for a non-empty name and a dot-free format. |
| FileNames.BaseNameStripsExamples | popup.js:68-76 | "photo.png" gives "photo" and "a.b.c" gives "a.b": only the last extension is stripped. |
| FileNames.BaseNameKeepsExamples | popup.js:68-76 | "noext" and ".hidden" are kept whole. |
| Progress.Clamp | popup.js:16-18 | The bar value for a report is at most 100 and at most the report, and it is either the report or 100. |
| Progress.ClampAll | popup.js:16-18 | One bar value per report, in order. Each is the clamped report, all are at most 100, and reports already at most 100 pass through unchanged. |
| Conversion.CompressImage | popup.js:11-27 | The bar values are the library's reports, one each, in order, each as `Clamp(report)`, so at most 100. Success hands on the library's file. Failure carries "Compression failed: " + the library's message. |
| Conversion.Encode | popup.js:35-66 | A read error fails with the reader's message, without touching the bar. Otherwise the bar is set to 100. SVG yields the traced markup as an "image/svg+xml" blob. A raster format yields the blob the encoder hands back for "image/<format>". If the encoder hands back none, it fails with the host's message for a missing blob (line 98). |
| Conversion.ConvertImage | popup.js:30-66 | Every bar value is at most 100, and success ends with 100. SVG success has type "image/svg+xml". Without compression it is the plain encode. A compression failure stops before encoding, with the prefixed message and the clamped reports. A compression success encodes the compressed file, and its bar values are the clamped reports followed by the encoding's. |
| Batch.Process | popup.js:95-111 | Over the first n files, the converter is called on a prefix of them, and on all n when nothing failed. The last file called is the failing one. Every call but a failing one yields an output. |
| Batch.ProcessAfterFailure | popup.js:95-97 | After a failure on a prefix, later files change nothing and are never converted. |
| Batch.ProcessCompletes | popup.js:95-111 | The loop completes without failure iff every file converts. |
| Batch.ProcessOutputs | popup.js:95-111 | When every file converts, the loop holds one output per file, in order, named `<base>.<format>`, carrying that file's blob. |
| Batch.ProcessStopsAtFirstFailure | popup.js:95-111 | If file i is the first to fail, exactly files 0..i are converted, the outputs are those of files 0..i-1 in order, and the failure carries file i's message. |
| Batch.ProcessProgress | popup.js:95-111 | The bar values of the loop are exactly the converter's writes for each attempted file, in selection order, including those of the file that failed. |
| Batch.ProcessProgressBounded | popup.js:95-111 | If no attempt writes more than 100 to the bar, no value written by the loop does. |
| Batch.ClickEmptySelection | popup.js:84-87 | With no or an empty selection, one "Please select an image." alert is raised and nothing is converted. The bar is neither shown nor written, and the rest of the state is unchanged. |
| Batch.ClickAllSucceed | popup.js:90-138 | Every file is converted once, in order. The download list gains exactly one `<base>.<format>` link per file, in order. "Download all" is shown iff there is more than one output, and it then archives those outputs. No alert is raised. The bar ends at 0, hidden. |
| Batch.ClickFailure | popup.js:90-138 | When file i is the first to fail, later files are never converted. The list gains the links of files 0..i-1 only. The alert is "Error: " + the message. The "download all" button and its archive are untouched. The bar ends at 0, hidden. |
| Batch.ClickProgressTrace | popup.js:90-138 | A non-empty batch writes 0 to the bar (line 91), then each attempted file's writes in order (lines 17, 52, 56), then 0 in the `finally` block (line 137). |
| Batch.ClickProgressBounded | popup.js:11-138 | For any host, no value written to the bar during a click exceeds 100. A non-empty batch shows the bar, first writes 0, and ends with the bar at 0. |
| Batch.ConvertAll | popup.js:93-111 | The source's loop that breaks on the first failure computes the fold `Process`. |

## Left out

- Image work: the compression library, file reading, image decoding, canvas
  drawing, raster encoding and SVG tracing are host oracles in `Host`. Their
  outputs are arbitrary, and the model proves nothing about image contents or
  sizes.
- Decode hang: the image load handler has no error path, so an undecodable
  image never settles and the batch hangs. An exception inside the SVG tracer
  behaves the same way, because it escapes an async callback. Neither is
  modelled: the reader and the tracer always answer.
- Archive export: building the zip, object URLs and their revocation, and the
  programmatic click are host I/O. The model keeps only which outputs the
  "download all" button would archive, and when it is shown.
- DOM and alerts: elements, styling and the blocking `alert` are represented
  only by the fields of `Ui`.
- Format validation: the format string is passed to the encoder uninterpreted.
  The encoder oracle decides what a raster format yields, including the blob's
  type; the model promises no raster MIME type.
- Asynchrony: each `await` is a sequential step of the fold. The bar values
  written during one attempt are recorded in order, but not interleaved with
  anything else. Showing the bar (line 92) is recorded as one flag per click
  (`Effect.progressShown`), not as a sequence of display changes.
- Progress.Clamp: percentages are integers. JavaScript's `NaN`, which
  `Math.min` passes through, is not modelled.
- File names are sequences of characters. JavaScript's UTF-16 code units are
  not modelled separately.
- Missing-blob message: the host's error message for a missing blob is a
  parameter (`Host.nullBlobMessage`), because its text depends on the browser.
