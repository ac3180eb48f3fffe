/** The progress indicator of the popup (popup.js, the compressor's
    `onProgress` callback and the bar value written by the conversion). */
module Progress {

  /** The value that marks a finished conversion and the cap on every value. */
  const Complete: int := 100

  /** `Math.min(percentage, 100)`: the bar value written for one report. */
  function Clamp(percentage: int): (r: int)
    ensures r <= Complete && r <= percentage
    ensures r == percentage || r == Complete
  {
    if percentage < Complete then percentage else Complete
  }

  /** Every value in `values` is at most `Complete`. */
  predicate AtMostComplete(values: seq<int>) {
    forall i :: 0 <= i < |values| ==> values[i] <= Complete
  }

  /** The bar values written for a sequence of compressor reports, in order. */
  function ClampAll(reports: seq<int>): (r: seq<int>)
    ensures |r| == |reports|
    ensures forall i :: 0 <= i < |r| ==> r[i] == Clamp(reports[i])
    ensures AtMostComplete(r)
    ensures AtMostComplete(reports) ==> r == reports
  {
    if |reports| == 0 then []
    else [Clamp(reports[0])] + ClampAll(reports[1..])
  }

  /** Concatenating runs that stay at or below `Complete` stays there. */
  lemma AtMostCompleteConcat(a: seq<int>, b: seq<int>)
    requires AtMostComplete(a) && AtMostComplete(b)
    ensures AtMostComplete(a + b)
  {
  }
}
