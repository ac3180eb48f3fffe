/** One file's conversion (popup.js, `compressImage` and `convertImage`).
    The image work itself — the compression library, reading, decoding,
    drawing on a canvas, re-encoding and SVG tracing — belongs to the host
    and is represented by the oracles of `Host`. */
module Conversion {
  import opened Wrappers
  import Progress

  /** A file chosen by the user: its name, MIME type and contents. */
  datatype SourceFile = SourceFile(name: string, mime: string, bytes: seq<int>)

  /** An encoded output image: its MIME type and contents. */
  datatype Blob = Blob(mime: string, bytes: seq<int>)

  /** What the compression library does with one file: the percentages it
      reports through the progress callback, then the compressed file or the
      message of the error it throws. */
  datatype Compression = Compression(reports: seq<int>, result: Result<SourceFile, string>)

  /** The host capabilities a conversion calls into.
      - `compressor`: the compression library, called with a 1 MB target.
      - `reader`: read and decode a file into the pixels drawn on the canvas,
        or the message of the reader's error.
      - `tracer`: the SVG markup traced from the canvas.
      - `encoder`: `canvas.toBlob` asked for a MIME type. The host chooses the
        type of the blob it hands back (it may differ from the one asked for),
        and it may hand back no blob at all.
      - `nullBlobMessage`: the message of the error the host raises when asked
        for an object URL of a missing blob. */
  datatype Host = Host(
    compressor: SourceFile -> Compression,
    reader: SourceFile -> Result<seq<int>, string>,
    tracer: seq<int> -> seq<int>,
    encoder: (seq<int>, string) -> Option<Blob>,
    nullBlobMessage: string)

  /** What a conversion attempt shows and yields: the values it writes to the
      progress bar, in order, and the blob or the failure message. */
  datatype Attempt = Attempt(progress: seq<int>, result: Result<Blob, string>)

  const SvgFormat: string := "svg"
  const SvgMime: string := "image/svg+xml"
  const RasterMimePrefix: string := "image/"
  const CompressionFailedPrefix: string := "Compression failed: "

  /** The MIME type the raster encoder is asked for. */
  function RequestedMime(format: string): (mime: string) {
    RasterMimePrefix + format
  }

  /** `compressImage`: every report reaches the bar as `Math.min(report, 100)`,
      in order; a successful compression hands the library's file on
      unchanged, and a failure is re-thrown with its message prefixed by
      "Compression failed: ". */
  function CompressImage(host: Host, file: SourceFile): (c: Compression)
    ensures |c.reports| == |host.compressor(file).reports|
    ensures forall i :: 0 <= i < |c.reports| ==>
              c.reports[i] == Progress.Clamp(host.compressor(file).reports[i])
    ensures Progress.AtMostComplete(c.reports)
    ensures c.result.Ok? <==> host.compressor(file).result.Ok?
    ensures c.result.Ok? ==> c.result == host.compressor(file).result
    ensures c.result.Err? ==>
              c.result.error == CompressionFailedPrefix + host.compressor(file).result.error
  {
    var raw := host.compressor(file);
    var reports := Progress.ClampAll(raw.reports);
    match raw.result
    case Ok(compressed) => Compression(reports, Ok(compressed))
    case Err(message) => Compression(reports, Err(CompressionFailedPrefix + message))
  }

  /** Reading, decoding and re-encoding one (possibly compressed) file, up to
      the object URL the click handler creates for the result. A read error
      rejects with the reader's message and leaves the bar alone. Otherwise
      the bar is set to 100; the SVG target always yields the traced markup
      as an "image/svg+xml" blob; a raster target yields the blob the encoder
      hands back for "image/<format>", or, when it hands back none, fails
      with the host's message for a missing blob. */
  function Encode(host: Host, file: SourceFile, format: string): (a: Attempt)
    ensures a.progress == [] <==> host.reader(file).Err?
    ensures a.progress != [] ==> a.progress == [Progress.Complete]
    ensures host.reader(file).Err? ==> a.result == Err(host.reader(file).error)
    ensures host.reader(file).Ok? && format == SvgFormat ==>
              a.result == Ok(Blob(SvgMime, host.tracer(host.reader(file).value)))
    ensures host.reader(file).Ok? && format != SvgFormat ==>
              var produced := host.encoder(host.reader(file).value, RequestedMime(format));
              && (produced.None? ==> a.result == Err(host.nullBlobMessage))
              && (produced.Some? ==> a.result == Ok(produced.value))
  {
    match host.reader(file)
    case Err(message) => Attempt([], Err(message))
    case Ok(pixels) =>
      if format == SvgFormat then
        Attempt([Progress.Complete], Ok(Blob(SvgMime, host.tracer(pixels))))
      else
        match host.encoder(pixels, RequestedMime(format))
        case None => Attempt([Progress.Complete], Err(host.nullBlobMessage))
        case Some(blob) => Attempt([Progress.Complete], Ok(blob))
  }

  /** `convertImage`: compress first when asked to, stopping at a compression
      failure, then encode. The bar shows the clamped compressor reports
      followed by the encoding's 100, and never more than 100. */
  function ConvertImage(host: Host, file: SourceFile, format: string, enableCompression: bool): (a: Attempt)
    ensures Progress.AtMostComplete(a.progress)
    ensures a.result.Ok? ==>
              && |a.progress| > 0
              && a.progress[|a.progress| - 1] == Progress.Complete
    ensures a.result.Ok? && format == SvgFormat ==> a.result.value.mime == SvgMime
    ensures !enableCompression ==> a == Encode(host, file, format)
    ensures enableCompression && host.compressor(file).result.Err? ==>
              && a.result == Err(CompressionFailedPrefix + host.compressor(file).result.error)
              && a.progress == CompressImage(host, file).reports
    ensures enableCompression && host.compressor(file).result.Ok? ==>
              var encoded := Encode(host, host.compressor(file).result.value, format);
              && a.result == encoded.result
              && a.progress == CompressImage(host, file).reports + encoded.progress
  {
    if enableCompression then
      var c := CompressImage(host, file);
      match c.result
      case Err(message) => Attempt(c.reports, Err(message))
      case Ok(compressed) =>
        var e := Encode(host, compressed, format);
        Progress.AtMostCompleteConcat(c.reports, e.progress);
        Attempt(c.reports + e.progress, e.result)
    else
      Encode(host, file, format)
  }
}
