/** The convert button's click handler (popup.js): the empty-selection guard,
    the sequential loop over the selected files that stops at the first
    failure, the download links, the "download all" decision and the progress
    bar reset of the `finally` block. */
module Batch {
  import opened Wrappers
  import FileNames
  import Progress
  import opened Conversion

  /** A converted file: its download name and blob. */
  datatype Output = Output(name: string, blob: Blob)

  /** The observable state of the popup.
      - `progress`, `progressVisible`: the progress bar's value and display.
      - `archiveVisible`: whether the "download all" button is displayed.
      - `archive`: the outputs its click handler would put in the archive.
      - `links`: the download list, one entry per anchor, in document order.
      - `alerts`: every alert raised, oldest first. */
  datatype Ui = Ui(
    progress: int,
    progressVisible: bool,
    archiveVisible: bool,
    archive: seq<Output>,
    links: seq<Output>,
    alerts: seq<string>)

  /** What one click does: the resulting state, the files handed to the
      converter in call order, every value written to the progress bar in
      order, and whether the bar was displayed while the batch ran. */
  datatype Effect = Effect(ui: Ui, attempted: seq<SourceFile>, progressTrace: seq<int>, progressShown: bool)

  /** The state of the conversion loop after some prefix of the selection. */
  datatype Loop = Loop(converted: seq<Output>, attempted: seq<SourceFile>, progress: seq<int>, failure: Option<string>)

  type Converter = SourceFile -> Attempt

  const NoSelectionAlert: string := "Please select an image."
  const ErrorAlertPrefix: string := "Error: "

  /** The converter the handler uses: `convertImage` with the chosen format
      and compression flag. */
  function ConvertWith(host: Host, format: string, enableCompression: bool): (convert: Converter) {
    (file: SourceFile) => ConvertImage(host, file, format, enableCompression)
  }

  /** The output recorded for a file the converter turned into `blob`. */
  function OutputFor(file: SourceFile, format: string, blob: Blob): (output: Output) {
    Output(FileNames.OutputName(file.name, format), blob)
  }

  /** One iteration of the loop, for a loop that has not failed yet. */
  function Step(prev: Loop, file: SourceFile, format: string, convert: Converter): (next: Loop)
    requires prev.failure.None?
  {
    var a := convert(file);
    match a.result
    case Err(message) => Loop(prev.converted, prev.attempted + [file], prev.progress + a.progress, Some(message))
    case Ok(blob) => Loop(prev.converted + [OutputFor(file, format, blob)], prev.attempted + [file], prev.progress + a.progress, None)
  }

  /** The loop over the first `n` selected files: files are converted in
      order, and once one fails the rest are left alone. The converter is
      called on a prefix of those files, on all of them when nothing failed;
      the last file called is the one that failed; every call but a failing
      one produced an output. */
  function Process(files: seq<SourceFile>, format: string, convert: Converter, n: nat): (r: Loop)
    requires n <= |files|
    decreases n
    ensures |r.attempted| <= n
    ensures forall j :: 0 <= j < |r.attempted| ==> r.attempted[j] == files[j]
    ensures r.failure.None? ==> |r.attempted| == n
    ensures r.failure.Some? ==>
              && |r.attempted| > 0
              && convert(files[|r.attempted| - 1]).result == Err(r.failure.value)
    ensures |r.converted| == if r.failure.Some? then |r.attempted| - 1 else |r.attempted|
  {
    if n == 0 then Loop([], [], [], None)
    else
      var prev := Process(files, format, convert, n - 1);
      if prev.failure.Some? then prev
      else Step(prev, files[n - 1], format, convert)
  }

  /** The click handler. */
  function Click(ui: Ui, selection: Option<seq<SourceFile>>, format: string, convert: Converter): (e: Effect) {
    if selection.None? || |selection.value| == 0 then
      Effect(ui.(alerts := ui.alerts + [NoSelectionAlert]), [], [], false)
    else
      Finish(ui, Process(selection.value, format, convert, |selection.value|))
  }

  /** What the handler does once the loop is over: the download list gains the
      loop's outputs; a failure raises its alert and leaves the "download all"
      button alone, a success shows that button exactly when there is more than
      one output; in both cases the bar, shown and set to 0 when the batch
      started, is reset to 0 and hidden. */
  function Finish(ui: Ui, loop: Loop): (e: Effect) {
    var links := ui.links + loop.converted;
    var after :=
      match loop.failure
      case Some(message) => ui.(links := links, alerts := ui.alerts + [ErrorAlertPrefix + message])
      case None =>
        if |loop.converted| > 1 then ui.(links := links, archiveVisible := true, archive := loop.converted)
        else ui.(links := links, archiveVisible := false);
    Effect(after.(progress := 0, progressVisible := false), loop.attempted, [0] + loop.progress + [0], true)
  }

  /** Once the loop has failed on the first `k` files, the files after them
      change nothing: none of them is converted. */
  lemma {:induction false} ProcessAfterFailure(files: seq<SourceFile>, format: string, convert: Converter, k: nat, n: nat)
    requires k <= n <= |files|
    requires Process(files, format, convert, k).failure.Some?
    ensures Process(files, format, convert, n) == Process(files, format, convert, k)
    decreases n
  {
    if k < n {
      ProcessAfterFailure(files, format, convert, k, n - 1);
      assert Process(files, format, convert, n - 1).failure.Some?;
    }
  }

  /** The loop over the first `n` files runs to completion exactly when each
      of them converts. */
  lemma {:induction false} ProcessCompletes(files: seq<SourceFile>, format: string, convert: Converter, n: nat)
    requires n <= |files|
    ensures Process(files, format, convert, n).failure.None? <==>
              forall i :: 0 <= i < n ==> convert(files[i]).result.Ok?
    decreases n
  {
    if n > 0 {
      ProcessCompletes(files, format, convert, n - 1);
    }
  }

  /** When each of the first `n` files converts, the loop over them holds
      one output per file, in selection order, each named after its file with
      the format as extension. */
  lemma {:induction false} ProcessOutputs(files: seq<SourceFile>, format: string, convert: Converter, n: nat)
    requires n <= |files|
    requires forall i :: 0 <= i < n ==> convert(files[i]).result.Ok?
    ensures |Process(files, format, convert, n).converted| == n
    ensures forall i :: 0 <= i < n ==>
              Process(files, format, convert, n).converted[i] == OutputFor(files[i], format, convert(files[i]).result.value)
    decreases n
  {
    if n > 0 {
      ProcessCompletes(files, format, convert, n - 1);
      ProcessOutputs(files, format, convert, n - 1);
      var prev := Process(files, format, convert, n - 1);
      assert Process(files, format, convert, n) == Step(prev, files[n - 1], format, convert);
    }
  }

  /** When file `i` is the first to fail, the loop stops there: the
      converter saw exactly files 0..i, the outputs are those of files
      0..i-1 in order, and the failure carries file i's message. */
  lemma {:induction false} ProcessStopsAtFirstFailure(files: seq<SourceFile>, format: string, convert: Converter, i: nat)
    requires i < |files|
    requires forall j :: 0 <= j < i ==> convert(files[j]).result.Ok?
    requires convert(files[i]).result.Err?
    ensures var r := Process(files, format, convert, |files|);
      && r.failure == Some(convert(files[i]).result.error)
      && r.attempted == files[..i + 1]
      && |r.converted| == i
      && forall j :: 0 <= j < i ==>
           r.converted[j] == OutputFor(files[j], format, convert(files[j]).result.value)
  {
    ProcessCompletes(files, format, convert, i);
    ProcessOutputs(files, format, convert, i);
    var prev := Process(files, format, convert, i);
    assert Process(files, format, convert, i + 1) == Step(prev, files[i], format, convert);
    ProcessAfterFailure(files, format, convert, i + 1, |files|);
    var r := Process(files, format, convert, |files|);
    assert |r.attempted| == i + 1;
    assert r.attempted == files[..i + 1];
  }

  /** The bar values the converter writes for the first `k` files, file by
      file, in selection order. */
  function Written(files: seq<SourceFile>, convert: Converter, k: nat): (values: seq<int>)
    requires k <= |files|
  {
    if k == 0 then [] else Written(files, convert, k - 1) + convert(files[k - 1]).progress
  }

  /** The loop's bar values are exactly what the converter wrote for each
      attempted file, in order, the failing file's writes included. */
  lemma {:induction false} ProcessProgress(files: seq<SourceFile>, format: string, convert: Converter, n: nat)
    requires n <= |files|
    ensures Process(files, format, convert, n).progress ==
              Written(files, convert, |Process(files, format, convert, n).attempted|)
    decreases n
  {
    if n > 0 {
      ProcessProgress(files, format, convert, n - 1);
      var prev := Process(files, format, convert, n - 1);
      if prev.failure.None? {
        assert Process(files, format, convert, n) == Step(prev, files[n - 1], format, convert);
      }
    }
  }

  /** The progress values of a loop whose every attempt stays at or below
      100 stay at or below 100. */
  lemma {:induction false} ProcessProgressBounded(files: seq<SourceFile>, format: string, convert: Converter, n: nat)
    requires n <= |files|
    requires forall i :: 0 <= i < n ==> Progress.AtMostComplete(convert(files[i]).progress)
    ensures Progress.AtMostComplete(Process(files, format, convert, n).progress)
    decreases n
  {
    if n > 0 {
      ProcessProgressBounded(files, format, convert, n - 1);
      var prev := Process(files, format, convert, n - 1);
      if prev.failure.None? {
        Progress.AtMostCompleteConcat(prev.progress, convert(files[n - 1]).progress);
      }
    }
  }

  /** With no selection or an empty one, the handler raises the
      "Please select an image." alert once, converts nothing, never touches
      the progress bar, and changes nothing else. */
  lemma ClickEmptySelection(ui: Ui, selection: Option<seq<SourceFile>>, format: string, convert: Converter)
    requires selection.None? || selection.value == []
    ensures Click(ui, selection, format, convert).attempted == []
    ensures Click(ui, selection, format, convert).progressTrace == []
    ensures !Click(ui, selection, format, convert).progressShown
    ensures Click(ui, selection, format, convert).ui == ui.(alerts := ui.alerts + [NoSelectionAlert])
  {
  }

  /** A batch in which every file converts: each file is converted once, in
      order; the download list gains one link per file, in order, named
      `<base>.<format>`; the "download all" button is shown exactly when there
      is more than one output and then archives those outputs; no alert is
      raised; the bar ends at 0 and hidden. */
  lemma ClickAllSucceed(ui: Ui, files: seq<SourceFile>, format: string, convert: Converter)
    requires files != []
    requires forall i :: 0 <= i < |files| ==> convert(files[i]).result.Ok?
    ensures var e := Click(ui, Some(files), format, convert);
      && e.attempted == files
      && |e.ui.links| == |ui.links| + |files|
      && e.ui.links[..|ui.links|] == ui.links
      && (forall i :: 0 <= i < |files| ==>
            e.ui.links[|ui.links| + i] == OutputFor(files[i], format, convert(files[i]).result.value))
      && (e.ui.archiveVisible <==> |files| > 1)
      && (|files| > 1 ==> e.ui.archive == e.ui.links[|ui.links|..])
      && (|files| <= 1 ==> e.ui.archive == ui.archive)
      && e.ui.alerts == ui.alerts
      && e.ui.progress == 0 && !e.ui.progressVisible
  {
    ProcessCompletes(files, format, convert, |files|);
    ProcessOutputs(files, format, convert, |files|);
    var loop := Process(files, format, convert, |files|);
    var links := ui.links + loop.converted;
    FinishAfterSuccess(ui, loop);
    assert Click(ui, Some(files), format, convert).ui.links == links;
    forall i | 0 <= i < |files|
      ensures links[|ui.links| + i] == OutputFor(files[i], format, convert(files[i]).result.value)
    {
      assert links[|ui.links| + i] == loop.converted[i];
    }
  }

  /** The end of a successful batch: the links gained, the "download all"
      decision, the reset bar, and nothing else. */
  lemma FinishAfterSuccess(ui: Ui, loop: Loop)
    requires loop.failure.None?
    ensures Finish(ui, loop) == Effect(
              ui.(links := ui.links + loop.converted,
                  archiveVisible := |loop.converted| > 1,
                  archive := if |loop.converted| > 1 then loop.converted else ui.archive,
                  progress := 0, progressVisible := false),
              loop.attempted, [0] + loop.progress + [0], true)
  {
  }

  /** A batch in which file `i` is the first to fail: files after `i` are
      never converted; the download list gains the links of files 0..i-1
      only; the alert is "Error: " followed by the failure's message; the
      "download all" button and its archive are left as they were; the bar
      ends at 0 and hidden. */
  lemma ClickFailure(ui: Ui, files: seq<SourceFile>, i: nat, format: string, convert: Converter)
    requires i < |files|
    requires forall j :: 0 <= j < i ==> convert(files[j]).result.Ok?
    requires convert(files[i]).result.Err?
    ensures var e := Click(ui, Some(files), format, convert);
      && e.attempted == files[..i + 1]
      && |e.ui.links| == |ui.links| + i
      && e.ui.links[..|ui.links|] == ui.links
      && (forall j :: 0 <= j < i ==>
            e.ui.links[|ui.links| + j] == OutputFor(files[j], format, convert(files[j]).result.value))
      && e.ui.alerts == ui.alerts + [ErrorAlertPrefix + convert(files[i]).result.error]
      && e.ui.archiveVisible == ui.archiveVisible
      && e.ui.archive == ui.archive
      && e.ui.progress == 0 && !e.ui.progressVisible
  {
    ProcessStopsAtFirstFailure(files, format, convert, i);
    var loop := Process(files, format, convert, |files|);
    var links := ui.links + loop.converted;
    FinishAfterFailure(ui, loop);
    assert Click(ui, Some(files), format, convert).ui.links == links;
    forall j | 0 <= j < i
      ensures links[|ui.links| + j] == OutputFor(files[j], format, convert(files[j]).result.value)
    {
      assert links[|ui.links| + j] == loop.converted[j];
    }
  }

  /** The end of a failed batch: the alert, the links gained, the reset bar,
      and nothing else. */
  lemma FinishAfterFailure(ui: Ui, loop: Loop)
    requires loop.failure.Some?
    ensures Finish(ui, loop) == Effect(
              ui.(links := ui.links + loop.converted,
                  alerts := ui.alerts + [ErrorAlertPrefix + loop.failure.value],
                  progress := 0, progressVisible := false),
              loop.attempted, [0] + loop.progress + [0], true)
  {
  }

  /** Whatever the host does, no value the handler writes to the progress bar
      exceeds 100, and a non-empty batch shows the bar, starts it at 0 and
      ends with it at 0. */
  lemma ClickProgressBounded(ui: Ui, selection: Option<seq<SourceFile>>, host: Host, format: string, enableCompression: bool)
    ensures var e := Click(ui, selection, format, ConvertWith(host, format, enableCompression));
      && Progress.AtMostComplete(e.progressTrace)
      && (selection.Some? && selection.value != [] ==>
            && e.progressShown
            && e.progressTrace[0] == 0
            && e.progressTrace[|e.progressTrace| - 1] == 0
            && e.ui.progress == 0)
  {
    var convert := ConvertWith(host, format, enableCompression);
    if selection.Some? && selection.value != [] {
      var files := selection.value;
      forall i | 0 <= i < |files|
        ensures Progress.AtMostComplete(convert(files[i]).progress)
      {
        assert convert(files[i]) == ConvertImage(host, files[i], format, enableCompression);
      }
      ProcessProgressBounded(files, format, convert, |files|);
      var loop := Process(files, format, convert, |files|);
      Progress.AtMostCompleteConcat([0], loop.progress);
      Progress.AtMostCompleteConcat([0] + loop.progress, [0]);
    }
  }

  /** A non-empty batch writes 0 to the bar, then every value the converter
      wrote for each attempted file, in order, then 0 again. */
  lemma ClickProgressTrace(ui: Ui, files: seq<SourceFile>, format: string, convert: Converter)
    requires files != []
    ensures var e := Click(ui, Some(files), format, convert);
      e.progressTrace == [0] + Written(files, convert, |e.attempted|) + [0]
  {
    ProcessProgress(files, format, convert, |files|);
  }

  /** The conversion loop written as the source writes it: a loop over the
      selection that stops at the first failure. It computes `Process`. */
  method ConvertAll(files: seq<SourceFile>, format: string, convert: Converter) returns (loop: Loop)
    ensures loop == Process(files, format, convert, |files|)
  {
    var converted: seq<Output> := [];
    var attempted: seq<SourceFile> := [];
    var progress: seq<int> := [];
    var failure: Option<string> := None;
    var i := 0;
    while i < |files| && failure.None?
      invariant 0 <= i <= |files|
      invariant Process(files, format, convert, i) == Loop(converted, attempted, progress, failure)
    {
      var a := convert(files[i]);
      attempted := attempted + [files[i]];
      progress := progress + a.progress;
      match a.result {
        case Err(message) =>
          failure := Some(message);
        case Ok(blob) =>
          converted := converted + [OutputFor(files[i], format, blob)];
      }
      i := i + 1;
    }
    if i < |files| {
      ProcessAfterFailure(files, format, convert, i, |files|);
    }
    loop := Loop(converted, attempted, progress, failure);
  }
}
